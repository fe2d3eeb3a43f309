# Verified model of the ranking, query, fingerprint and delivery algorithms

This Dafny 4.11 project models the algorithmic core of the repository and proves what it relies on. It has
six parts:

- **Weighted PageRank** over the call graph (`RealSums`, `Vectors`, `Contraction`, `Damping`, `Transpose`,
  `Sorting`, `CallGraph`, `PageRank`, `EdgeShares`, `Elimination`, `Stationary`, `Teleport`, `Ranking`). Arithmetic is
  exact, over `real`; the square root of the edge weight is a function with `sqrt(n) * sqrt(n) == n`. `Contraction` is
  the general theory of an iterated contraction with a tolerance test, `Damping` the linear algebra of one damped pass,
  `Transpose` the step from outgoing lists to the incoming lists the program sums over, `EdgeShares` what the edges of
  the graph have to do with those lists. `Elimination` solves the equations of the stationary vector, so `Stationary`
  can say that it exists and that the ranks approach it.
- **Edit distance and did-you-mean** (`EditDistance`), specified by a minimum over all edit scripts.
- **Structural fingerprints**: the preprocessor machine (`Condition`, `ZeroScan`, `Preprocessor`, `Neutralize`, and
  `DirectiveLines` on the text of its lines), a simplification of conditional inclusion, section 6.10.1 of ISO/IEC
  9899:2011, and the tree walk with its hashes (`WordRuns`, `SyntaxTree`, `NodeKinds`, `Fingerprint`, `Shape`,
  `Kgrams`, `Comments`, `KindTable` on the shipped kinds, `TokenMeaning` on what a node becomes).
- **Delivery DAG checking** (`DeliveryDag`, `DagReasons`) and **Rust test-impact selection** (`RustImpact`).
- **Ledger promotion**: the rules (`Ledger`), their loops (`Evaluate`), the two evidence lanes (`Lanes`), the
  evidence chain (`EvidenceChain`, `StreakRule`), applying a run (`Promoter`), sequences of runs (`LedgerRuns`), the
  same run twice (`SecondRun`), the rules in terms of recorded outcomes (`LaneRules`) and the reasons of a verdict
  (`LedgerReasons`).
- **The query scanner** and its vocabulary (`QueryScanner`).

Code that works step by step is modelled by methods with loops, arrays and classes, each proved against a
specification function; the properties are lemmas about those functions. What the code takes from outside
(Unicode tables, digests, regular expressions, what was collected for a commit, the clock, the wording of notes) is
a function or a value handed in.

Where the code and what is said about it differ, the model follows the code:

- `neutralize_preprocessor` is documented to keep the branch a conditional opens with, or `#else` where it opens
  with `#if 0`. The code keeps the first branch that is not a constant-false `#if` or `#elif`, and `#else` only when
  there is none (`Preprocessor.MachineIsMeaning`). The two agree if and only if the opening directive is live or no
  live `#elif` stands before the first `#else` (`Preprocessor.DocumentedExactly`); on `#if 0`, x, `#elif A`, y,
  `#else`, z, `#endif` they do not: the code keeps y (`Neutralize.ElifIsKept`).
- `is_constant_false` says that it allows comments. It cuts at `//` first, also where that stands inside a block
  comment. Only then can it be wrong, and two things decide whether it is: how far the text before that comment
  reads as a zero, and what stands behind the comment. A live condition is taken as false if and only if the text
  before is a zero and the text behind is more than suffix letters and blanks
  (`ZeroScan.WronglyFalseExactly`, for example `0/*//*/+1`); a false one is taken as live if and only if the text
  behind completes a zero that the text before leaves open (`ZeroScan.WronglyLiveExactly`, for example
  `(0/*//*/)`).
- `personalize_for_changed` says it never returns a zero distribution; it does exactly when no changed symbol is a
  node and beta is at least 1, and `pagerank` then falls back to the uniform vector (`Teleport.ZeroMap`,
  `Teleport.TeleInUse`).
- The DAG checker misses a task with an empty id that depends on itself, because an empty id never starts the
  search; this is the only cycle it misses (`DeliveryDag.EmptyReport`, `DeliveryDag.EmptyIdEscapes`). A list entry
  that is not a dictionary ends in an attribute error in the search, so its reason is never reported
  (`DeliveryDag.FailsExactly`).
- The ledger says that pending steps never keep a planned feature from beta. The code tells malformed data from
  unfinished work by words in the text of the reason, so a pending step whose first 60 characters mention
  "malformed", "not numeric" or "not finite" does block (`Lanes.SoundingMalformedBlocks`); all other unfinished
  work does not (`Lanes.UnfinishedWorkIsAllowed`).

Two invariances hold up to an exact limit:

- The walk drops the comments it meets. Tokens, k-grams and minhash do not depend on comments outside callees, nor on
  names (`NodeKinds.NamesAndCommentsDoNotCount`); the other records do. Everything recorded for a function is the
  same without comments if and only if, at every node the walk comes to, no comment stands directly in an argument
  list, no argument takes its name from a comment, and a condition found by its position has the variables of the
  second named child that is no comment (`Comments.TidyFunctions`). The last holds when neither of the first two named
  children is a comment (`Comments.ConditionExactly`); otherwise the guard may lose its variables, as in
  `Comments.CommentHidesCondition`.
- Applying the same run a second time changes nothing unless a feature meets a rule again: one that went from
  in_progress to beta may go to stable on the same evidence (`SecondRun.TwoStepsOnOneRun`), and one may follow another
  to beta once a test they share is a gating one (`SecondRun.SecondRunTakesTheOther`). Which features move again can
  be told from the ledger and the evidence before the first run (`SecondRun.SameRunTwiceExactly`).

## Model

| member | source | states |
|---|---|---|
| `CallGraph.AggregateMonotone` | code-graph/src/rank.rs:30-38 | With the mean confidence fixed, more references never weigh less; every weight is between 0 and the cap 8. |
| `CallGraph.WeightExactly` | code-graph/src/rank.rs:30-38 | Below the cap a weight squared, times the number of references, is the square of their confidence sum, so the weight is the mean times the root of the number; it is 8 if and only if that would reach 8. |
| `CallGraph.AggregateGrows` | code-graph/src/rank.rs:30-38 | With a positive mean kept fixed, every further reference weighs strictly more until the cap. |
| `CallGraph.BuildCallGraph` | code-graph/src/rank.rs:43-86 | Strictly sorted names of all endpoints of non-loop calls; strictly sorted edges, exactly one per distinct non-loop pair, each weighted by the confidence sum and count of all its occurrences. |
| `CallGraph.IndexNodes` | code-graph/src/rank.rs:44-60 | The names are the endpoints of non-loop calls, sorted without repetition, and the index inverts the list. |
| `CallGraph.CollectNodes` | code-graph/src/rank.rs:44-51 | A name is collected exactly when it is an endpoint of a call that is not a self-call. |
| `CallGraph.GroupEdges` | code-graph/src/rank.rs:62-84 | The index-driven loop over the sorted triples yields every non-loop pair once, with the weight of all its triples wherever they stood in the input. |
| `CallGraph.SumGroup` | code-graph/src/rank.rs:73-79 | Scanning one sorted group adds up all occurrences of its pair in the whole list and ends at the start of the next group. |
| `CallGraph.CallGraphCanonical` | code-graph/src/rank.rs:40-43 | Any permutation of the triples gives the same graph, node by node and edge by edge. |
| `CallGraph.EdgeExactly` | code-graph/src/rank.rs:43-86 | Every edge belongs to a call that is no self-call and has the weight above for the sum and the number of all triples of its pair, wherever they stand. |
| `CallGraph.EdgesAreCalls` | code-graph/src/rank.rs:43-86 | There is an edge from a to b if and only if some triple says that a calls b and they differ. |
| `CallGraph.EdgesInOrder` | code-graph/src/rank.rs:62-84 | Edges come in the order of the callers' names, those of one caller in the order of the names it calls. |
| `CallGraph.WeightsNonneg` | code-graph/src/rank.rs:43-86 | Nonnegative confidences give weights in 0..8, and there are no self-loops. |
| `PageRank.BuildAdjacency` | code-graph/src/rank.rs:121-142 | The arrays hold each node's out-weight and, as incoming lists, the exact transpose of the outgoing lists in index order. |
| `PageRank.EnterArcs` | code-graph/src/rank.rs:139-141 | Entering one node's arcs extends every incoming list by precisely the arcs of that node that point there. |
| `PageRank.FlowInto` | code-graph/src/rank.rs:156-161 | The inner loop adds rank times weight over out-weight for all incoming arcs, skipping sources without out-weight. |
| `PageRank.NextRank` | code-graph/src/rank.rs:155-162 | The value computed for a node is that coordinate of the damped pass over the transition matrix. |
| `PageRank.RunPass` | code-graph/src/rank.rs:146-164 | The fresh array is the damped pass applied to the old ranks, and delta is the largest change. |
| `PageRank.PowerIteration` | code-graph/src/rank.rs:144-169 | The loop returns the iterate at which the tolerance test or the cap stops it. |
| `PageRank.Pagerank` | code-graph/src/rank.rs:91-175 | The returned map is that vector read through the node names; an empty graph gives an empty map. |
| `Transpose.InnerSum` | code-graph/src/rank.rs:146-162 | Summing over incoming lists and adding the dangling mass by teleport is the flow of the row-stochastic matrix: transposition loses nothing. |
| `Transpose.RowIsDistribution` | code-graph/src/rank.rs:121-161 | The shares a node sends out, its dangling share included, are nonnegative and add up to 1. |
| `Transpose.SharesAreStochastic` | code-graph/src/rank.rs:121-161 | So the whole transition matrix is stochastic for nonnegative weights. |
| `Damping.FlowConserved` | code-graph/src/rank.rs:146-163 | Pushing any vector through the matrix keeps its total. |
| `Damping.StepKeepsDistribution` | code-graph/src/rank.rs:146-163 | A pass takes distributions to distributions with the teleport floor. |
| `Damping.IteratesAreDistributions` | code-graph/src/rank.rs:144-169 | Every iterate is nonnegative, sums to exactly 1 and is at least (1-alpha) times teleport. |
| `Damping.StepContracts` | code-graph/src/rank.rs:146-163 | A pass shrinks the L1 distance between any two vectors by at least the factor alpha. |
| `Damping.ChangeBound` | code-graph/src/rank.rs:144-169 | Pass k+1 moves the vector by at most 2 alpha^(k+1) in all and no component by more than alpha^(k+1). |
| `Contraction.FixedPointUnique` | code-graph/src/rank.rs:144-169 | A contracting pass has at most one fixed point. |
| `Contraction.FixedPointNear` | code-graph/src/rank.rs:144-169 | A pass that moves by at most b ends within alpha/(1-alpha) b of the fixed point. |
| `Contraction.StopsByTolerance` | code-graph/src/rank.rs:144-169 | If pass m would move less than the tolerance, the loop has stopped by then, and by the tolerance test. |
| `PageRank.TeleIsDistribution` | code-graph/src/rank.rs:104-119 | The normalised teleport vector is a distribution for all nonnegative weights, also when their sum is 0. |
| `Teleport.TeleExactly` | code-graph/src/rank.rs:104-119 | A node's teleport share times the total of the map on the nodes is the node's own weight, 0 if the map does not name it; without a positive total all shares are 1/n. |
| `PageRank.OutsAreProper` | code-graph/src/rank.rs:121-142 | Every valid graph with nonnegative weights gives outgoing lists with targets in range and nonnegative weights. |
| `EdgeShares.ArcsAreEdges` | code-graph/src/rank.rs:121-142 | A node has as many arcs as edges leave it, and its arcs to a node weigh what the edge between them weighs, 0 without one. |
| `EdgeShares.SharesOfEdges` | code-graph/src/rank.rs:121-161 | A node sends each other node the weight of its edge over the weight of all its edges; one without weight on its edges sends by teleport. |
| `EdgeShares.CallShares` | code-graph/src/rank.rs:43-161 | On every call graph, so in a ranking each function passes its rank on to the functions it calls, in proportion to the edge weights. |
| `PageRank.RanksAreDistribution` | code-graph/src/rank.rs:91-175 | The result is a distribution in which every node has at least (1-alpha) times its teleport weight. |
| `PageRank.StopsByTolerance` | code-graph/src/rank.rs:144-169 | For any alpha, cap and tolerance: once alpha^m is below the tolerance, at most m passes are made and the last change is below it. |
| `PageRank.ShippedConstantsStop` | code-graph/src/rank.rs:17-22 | With 0.85, 100 passes and 1e-6 the cap never cuts the loop off: it stops by tolerance after at most 86 passes on every graph. |
| `PageRank.StationaryUnique` | code-graph/src/rank.rs:144-169 | At most one vector is stationary under a pass. |
| `PageRank.ResultIsNearLimit` | code-graph/src/rank.rs:144-175 | A result reached by tolerance is within alpha/(1-alpha) n tol of any stationary vector in L1. |
| `Elimination.Solve` | code-graph/src/rank.rs:144-169 | The equations x = c + A x with a nonnegative matrix whose columns add up to at most alpha below 1, of which the damped pass is an instance, have a nonnegative solution. |
| `Stationary.OneStationary` | code-graph/src/rank.rs:144-169 | On every graph with nonnegative weights exactly one vector is stationary under a pass, and it is a distribution. |
| `Stationary.RanksConverge` | code-graph/src/rank.rs:144-169 | After k passes the ranks are within 2 alpha^k of it. |
| `Stationary.ResultIsNearStationary` | code-graph/src/rank.rs:144-175 | A result reached by tolerance is within alpha/(1-alpha) n tol of it. |
| `Stationary.ShippedResultIsNear` | code-graph/src/rank.rs:17-22 | With the shipped constants that holds on every such graph. |
| `PageRank.FurtherPassesStayNear` | code-graph/src/rank.rs:144-175 | The same radius bounds every later iterate, whether or not a stationary vector exists. |
| `Ranking.RankedCallGraph` | code-graph/src/rank.rs:43-175 | End to end for every list of triples with nonnegative confidences: every endpoint and nothing else is ranked, ranks add up to 1, each function passes its rank on in proportion to the weights of its edges, and tolerance ends the loop within 86 passes. |
| `Ranking.EightySixPassesAreNeeded` | code-graph/src/rank.rs:17-22 | On a two-node cycle the loop makes exactly 86 passes, so no smaller bound holds. |
| `Teleport.PersonalizeForChanged` | code-graph/src/rank.rs:188-213 | Every node, and no other name, gets the uniform part plus its share of the clamped beta if it changed. |
| `Teleport.WeightsExactly` | code-graph/src/rank.rs:188-213 | Of n nodes, h of them changed: n h times a weight is h (1 - b), for a changed node n b more, where b is beta moved into 0..1; n times it is 1 - b when h is 0. |
| `Teleport.PersonalTotal` | code-graph/src/rank.rs:185-213 | The weights add up to 1, short of beta exactly when no changed symbol is a node. |
| `Teleport.TeleInUse` | code-graph/src/rank.rs:104-119 | The vector `pagerank` uses after personalisation is a distribution for any beta: the personal weights, or exactly uniform when no changed symbol is a node. |
| `Teleport.ZeroMap` | code-graph/src/rank.rs:185-187 | The map alone is all zeros if and only if no changed symbol is a node and beta is at least 1. |
| `Teleport.UniformInUse` | code-graph/src/rank.rs:177-183 | The map of equal weights gives the vector that is 1/n everywhere. |
| `EditDistance.ComputeDistance` | code-graph/src/confidence.rs:157-178 | The two rolling rows with their swap compute the minimum cost over edit scripts. |
| `EditDistance.FillRow` | code-graph/src/confidence.rs:168-174 | Filling the row in place turns row i of the recurrence into row i+1 for every prefix of the second string. |
| `EditDistance.DistanceIsMinimum` | code-graph/src/confidence.rs:155-178 | Some script of that cost turns one string into the other and none is cheaper. |
| `EditDistance.NoCheaperScript` | code-graph/src/confidence.rs:155-178 | Every insert, delete and substitute script costs at least the recurrence's value. |
| `EditDistance.DistanceIsMetric` | code-graph/src/confidence.rs:155-178 | Zero only on equal strings, symmetric, triangle inequality. |
| `EditDistance.LevTriangle` | code-graph/src/confidence.rs:168-177 | The triangle inequality on all triples of prefixes. |
| `EditDistance.SuggestSimilar` | code-graph/src/confidence.rs:131-153 | The pipeline returns the first max candidates above the similarity bar, sorted by distance. |
| `EditDistance.SimilarExactly` | code-graph/src/confidence.rs:138-145 | A candidate is similar if and only if five times its distance is below the byte length of the longer name. |
| `EditDistance.QualifyingCounts` | code-graph/src/confidence.rs:135-147 | Every similar candidate is ranked, with its distance, as often as the pool has it, and no other one is. |
| `EditDistance.TiesKeepOrder` | code-graph/src/confidence.rs:147 | Candidates at the same distance stay in the order of the pool. |
| `EditDistance.SuggestionsAreNearest` | code-graph/src/confidence.rs:128-153 | Suggestions are qualifying candidates in nondecreasing distance; no omitted qualifying one is nearer than a kept one, and one is omitted only when the list is full. |
| `EditDistance.ExactMatchFirst` | code-graph/src/confidence.rs:128-153 | A non-empty name among the candidates comes first whenever max is at least 1. |
| `Condition.IsConstantFalse` | code-graph/src/fingerprint.rs:268-292 | The cutting and unwrapping loops decide the specified predicate. |
| `Condition.RemoveBlockComments` | code-graph/src/fingerprint.rs:273-285 | The loop removes every block comment, and everything from an unfinished one on. |
| `Condition.ConstantFalseExactly` | code-graph/src/fingerprint.rs:266-292 | A condition is constant false if and only if, after the cut at `//` and the removal of block comments, it is 0 with optional suffixes in any number of parentheses with blanks between. |
| `Condition.CleanedExactly` | code-graph/src/fingerprint.rs:268-286 | What the two steps leave is the text without its comments, read from left to right, if and only if no `//` hides inside a block comment or only comments follow that block comment. |
| `ZeroScan.ZeroExactly` | code-graph/src/fingerprint.rs:286-291 | A text is a zero with suffixes, parentheses and blanks if and only if one pass from left to right with a counter of open parentheses says so; trimming and unwrapping from both ends decide the same. |
| `ZeroScan.HarmlessExactly` | code-graph/src/fingerprint.rs:286-291 | A zero with more text behind it is still one if and only if that text is suffix letters and then blanks, letters only right after the digit or another suffix. |
| `ZeroScan.WronglyFalseExactly` | code-graph/src/fingerprint.rs:268-292 | A live condition is taken as constant false if and only if a `//` hides in a block comment, the text before that comment reads as a zero and the text behind is not harmless. |
| `ZeroScan.WronglyLiveExactly` | code-graph/src/fingerprint.rs:268-292 | A constant-false condition is taken as live if and only if a `//` hides in a block comment, the text before is no zero yet and the text behind completes one. |
| `ZeroScan.DecisionExactly` | code-graph/src/fingerprint.rs:266-292 | So the decision is right for the text without its comments if and only if no `//` hides in a block comment, or the text behind neither spoils nor completes a zero. |
| `ZeroScan.HiddenLineComment` | code-graph/src/fingerprint.rs:270-272 | A condition that reads 0+1 and is taken as constant false. |
| `ZeroScan.HiddenParenthesis` | code-graph/src/fingerprint.rs:270-272 | A condition that reads (0) and is taken as live. |
| `Preprocessor.MachineIsMeaning` | code-graph/src/fingerprint.rs:203-264 | On every well-nested list of lines, in any surrounding text, the stack machine outputs the recursive meaning (first live branch, else `#else`, nothing of dropped branches) and restores its stack. |
| `Preprocessor.DocumentedExactly` | code-graph/src/fingerprint.rs:197-202 | For every well-formed conditional the branch the documentation names is the branch the code keeps if and only if the opening directive is live or no live `#elif` stands before the first `#else`. |
| `Preprocessor.MeaningAsDocumented` | code-graph/src/fingerprint.rs:197-202 | Where this holds of every conditional, nested ones included, the output is the documented one. |
| `Preprocessor.BalancedIsWellNested` | code-graph/src/fingerprint.rs:203-264 | Every list of lines with balanced conditionals is the text of a well-formed tree. |
| `Preprocessor.EveryRun` | code-graph/src/fingerprint.rs:203-264 | On any input, even unbalanced, the top entry's activity is the conjunction of all open branch flags, and no open conditional has switched on more than one branch. |
| `Preprocessor.ActiveIsAll` | code-graph/src/fingerprint.rs:214-216 | The top entry alone decides what all open branches decide together. |
| `Neutralize.NeutralizePreprocessor` | code-graph/src/fingerprint.rs:203-264 | The loop over physical lines with stack, continuation flag and output buffer computes the machine's text. |
| `Neutralize.HandleLine` | code-graph/src/fingerprint.rs:213-262 | One line's branch through continuation, directive and text is one step of the machine. |
| `Neutralize.ApplyDirective` | code-graph/src/fingerprint.rs:229-254 | Each directive does to the stack what the machine does; which word is which directive is `DirectiveLines.DirectiveLine`. |
| `Neutralize.LineByLine` | code-graph/src/fingerprint.rs:197-202 | Every output line is the same-numbered input line or empty, as many lines as before, and none is a directive, for every input. |
| `Neutralize.Idempotent` | code-graph/src/fingerprint.rs:203-264 | Neutralising twice is neutralising once, for every input. |
| `Neutralize.NeutralIsMeaning` | code-graph/src/fingerprint.rs:203-264 | A text with balanced conditionals is neutralised to the meaning of its parse. |
| `Neutralize.ElifIsKept` | code-graph/src/fingerprint.rs:203-264 | A text with an `#elif` between `#if 0` and `#else`: the `#elif` branch is kept, the documentation says `#else`. |
| `DirectiveLines.DirectiveLine` | code-graph/src/fingerprint.rs:221-254 | A line of blanks, `#`, blanks, a word and the rest is a directive: `ifdef` and `ifndef` open a live branch, `if` one that is live unless the rest is constant false, `elifdef`, `elifndef` and `elif` likewise go on with one, `else` and `endif` are what they say, and any other word, also an empty one, leaves the stack alone. |
| `DirectiveLines.HashExactly` | code-graph/src/fingerprint.rs:213-222 | A line is a directive if and only if `#` is its first character that is no blank. |
| `DirectiveLines.SplicedExactly` | code-graph/src/fingerprint.rs:217-223 | A line is continued if and only if a backslash is its last character that is no blank. |
| `DirectiveLines.IfdefKeepsFirst` | code-graph/src/fingerprint.rs:203-264 | Of an `#ifdef` or `#ifndef` with any name, x, `#else`, y and `#endif`, the text keeps x alone. |
| `DirectiveLines.ContinuationIsBlanked` | code-graph/src/fingerprint.rs:217-223 | A `#define` that ends in a backslash takes the next line with it, whatever that line is, and the line after that stays. |
| `WordRuns.RunsAreMaximal` | code-graph/src/budget.rs:127-137 | The runs of a text are the only way to write it as non-empty pieces of word characters with gaps between them. |
| `SyntaxTree.FindLastIdent` | code-graph/src/fingerprint.rs:421-435 | The scan returns the last maximal run of identifier characters. |
| `SyntaxTree.LastSegment` | code-graph/src/fingerprint.rs:420-435 | Whatever qualifier and separator stand before a final name, the name is what remains. |
| `SyntaxTree.CollectConditionVars` | code-graph/src/fingerprint.rs:590-610 | The stack traversal finds exactly the identifiers of the condition tree outside comments. |
| `SyntaxTree.FirstIdentText` | code-graph/src/fingerprint.rs:569-588 | The reversed-push stack finds the first identifier in source order, also from an unnamed root. |
| `SyntaxTree.ArgumentNames` | code-graph/src/fingerprint.rs:663-672 | One name per named argument, empty when it holds no identifier. |
| `SyntaxTree.CountNamedNodes` | code-graph/src/fingerprint.rs:612-625 | The stack traversal counts the named nodes of the tree. |
| `TokenMeaning.OperatorExactly` | code-graph/src/fingerprint.rs:551-567 | The operator is the text of the operator field; without one, of the only unnamed child. |
| `TokenMeaning.CalleeExactly` | code-graph/src/fingerprint.rs:656-662 | The callee is the function field, without one the name field, without both empty. |
| `TokenMeaning.ConditionExactly` | code-graph/src/fingerprint.rs:513-549 | The condition is the condition field, then the test field, then what the kind of the guard says: the value field, for loops also the right field, or nothing. |
| `TokenMeaning.ClauseExactly` | code-graph/src/fingerprint.rs:529-537 | A for loop without these fields takes the condition of its first clause that has one. |
| `Fingerprint.FnWalk.Walk` | code-graph/src/fingerprint.rs:635-718 | The recursive walk adds to the accumulator, in order, exactly the events of the subtree. |
| `Fingerprint.FnWalk.WalkChildren` | code-graph/src/fingerprint.rs:679-717 | All children are entered, those of a call except for unnamed ones and the byte ranges of its callee. |
| `Fingerprint.FnWalk.RecordCall` | code-graph/src/fingerprint.rs:656-678 | A call adds one record and one token with the last identifier of its callee. |
| `Fingerprint.FnWalk.RecordGuard` | code-graph/src/fingerprint.rs:644-654 | A guard node adds one record with the identifiers of its condition. |
| `Fingerprint.FnWalk.RecordOwn` | code-graph/src/fingerprint.rs:655-713 | Each class of node adds its token, and identifiers a line entry. |
| `TokenMeaning.TokensTellApart` | code-graph/src/fingerprint.rs:655-713 | Two nodes that are no comments have the same token if and only if both are calls of the same name, both identifiers, both numbers, both strings, operators of the same kind and text, or others of the same kind. |
| `TokenMeaning.ExampleWalk` | code-graph/src/fingerprint.rs:635-718 | `if a < 1 { o.Get_1(b) }` walked from end to end: eight tokens in order, the call with its argument, the guard with its variable, the lines of both variables. |
| `TokenMeaning.ExampleCount` | code-graph/src/fingerprint.rs:612-625 | That tree of ten nodes, one of them unnamed, has nine named ones. |
| `Fingerprint.IdTokensAreEntries` | code-graph/src/fingerprint.rs:695-699 | After any walk the number of identifier tokens is the number of line entries plus the nodes whose kind is spelled the same. |
| `Fingerprint.CallTokensAreCalls` | code-graph/src/fingerprint.rs:673-678 | The call tokens name the recorded calls one by one and in order. |
| `NodeKinds.FunctionsAreConsistent` | code-graph/src/fingerprint.rs:635-718 | With the shipped classification, on every tree with grammar-like kinds: as many identifier tokens as line entries, and the call tokens are the calls. |
| `KindTable.ClassesExactly` | code-graph/src/fingerprint.rs:437-499 | Every node has the class that the kinds and texts listed give it, the first that applies of comment, call, identifier, number, string and operator; endings, inner words and first characters are stated on the text itself. |
| `KindTable.GuardsExactly` | code-graph/src/fingerprint.rs:501-549 | Every kind has the guard name and the place of its condition from the tables. |
| `NodeKinds.RewordedIsSame` | code-graph/src/fingerprint.rs:437-487 | With the shipped classes, trees that differ in names, in comments, in literals of one class and in callees as long as the called name stays, lines and ranges as well, are the same but for names: no node changes its class. |
| `NodeKinds.RenamingRewords` | code-graph/src/fingerprint.rs:437-487 | Renaming every identifier of a tree outside its callees, by any renaming, is such an edit. |
| `NodeKinds.NamesAndCommentsDoNotCount` | code-graph/src/fingerprint.rs:635-761 | With the shipped classes: functions that differ by such edits and by comments outside callees have the same k-grams and the same minhash. |
| `Shape.AlikeTokens` | code-graph/src/fingerprint.rs:635-718 | Trees that differ in identifier and literal texts, comments, lines and byte ranges, and inside callees but for the called name, give the same tokens. |
| `Shape.BareAlike` | code-graph/src/fingerprint.rs:640-642 | A tree has the shape of the tree without its comments. |
| `Shape.NamesKeepShape` | code-graph/src/fingerprint.rs:635-718 | Trees that are the same but for names, lines and byte ranges have the same shape. |
| `Shape.NamesAndCommentsGiveNoTokens` | code-graph/src/fingerprint.rs:635-718 | Renaming and commenting, with all the moves of later nodes that come with it, change no token. |
| `Shape.SkippedIsCallee` | code-graph/src/fingerprint.rs:679-690 | Where children have ranges of their own, the children of a call skipped by byte range are exactly its callee. |
| `Shape.MovedIsSame` | code-graph/src/fingerprint.rs:679-690 | So trees that differ in nothing but lines and byte ranges are the same but for names. |
| `Shape.CalleeComment` | code-graph/src/fingerprint.rs:656-662 | Inside a callee comments do matter: a word of a comment at its end becomes the callee. |
| `Comments.CallExactly` | code-graph/src/fingerprint.rs:655-678 | The record of a call is the same without comments if and only if no comment stands directly in its argument list and no argument takes its name from a comment. |
| `Comments.PlainCalls` | code-graph/src/fingerprint.rs:663-672 | Where comments hold no identifiers, only comments directly in the argument list count. |
| `Comments.GuardExactly` | code-graph/src/fingerprint.rs:513-549 | A guard and its variables are the same without comments if and only if its condition has a field, or the second named child has the variables of the second one that is no comment. |
| `Comments.ConditionExactly` | code-graph/src/fingerprint.rs:540-546 | A condition found by position is the same node without comments if and only if neither of the first two named children is a comment. |
| `Comments.EventsExactly` | code-graph/src/fingerprint.rs:635-718 | Everything the walk records, calls, guards and variables included, is the same without comments if and only if the calls and guards of every node it comes to are. |
| `Comments.TidyFunctions` | code-graph/src/fingerprint.rs:437-549 | The same equivalence with the shipped classes. |
| `Comments.CommentAmongArguments` | code-graph/src/fingerprint.rs:663-672 | A comment in an argument list is recorded as an empty argument. |
| `Comments.CommentBeforeCondition` | code-graph/src/fingerprint.rs:513-549 | A comment in the second place of a node whose condition is its second named child: the guard has no variables, without the comment it has those of the condition. |
| `Comments.CommentHidesCondition` | code-graph/src/fingerprint.rs:437-549 | A conditional expression of the shipped classes whose guard loses its variable to a comment. |
| `Kgrams.KgramsFor` | code-graph/src/fingerprint.rs:720-735 | The count of a key is the number of places at which three tokens in a row hash to it; one or two tokens are hashed whole, once, and without tokens there is no key. |
| `Kgrams.KgramsExactly` | code-graph/src/fingerprint.rs:720-735 | The tally over the windows is that count, for every token list and hash. |
| `Kgrams.KgramsUnique` | code-graph/src/fingerprint.rs:720-735 | These counts determine the map. |
| `Kgrams.TallyCounts` | code-graph/src/fingerprint.rs:720-735 | A key's count is the number of windows with that hash, and no key has count 0. |
| `Kgrams.TallyConserves` | code-graph/src/fingerprint.rs:720-735 | The counts add up to the number of windows. |
| `Kgrams.TallyOfBag` | code-graph/src/fingerprint.rs:720-735 | The counts depend on the bag of window hashes only. |
| `Kgrams.MinhashFor` | code-graph/src/fingerprint.rs:737-753 | Exactly 64 values, each the least digest of any key in its slot; all are the largest 32-bit value if there is no key. |
| `Kgrams.MinhashUnique` | code-graph/src/fingerprint.rs:737-753 | The key set determines the minhash. |
| `Kgrams.MinhashOfUnion` | code-graph/src/fingerprint.rs:737-753 | The minhash of a union of key sets is the slot-wise minimum. |
| `Kgrams.FingerprintOf` | code-graph/src/fingerprint.rs:755-781 | Name, first and last line and the number of named nodes, calls and guards of the walk, the counts of three tokens in a row, minhash of their keys, variables with sorted lines. |
| `Kgrams.ShapeFixesHashes` | code-graph/src/fingerprint.rs:755-761 | Functions of the same shape have the same k-grams and the same minhash. |
| `Kgrams.SortedEntries` | code-graph/src/fingerprint.rs:762-769 | Sorting the lines keeps every entry. |
| `Kgrams.LinesAreSorted` | code-graph/src/fingerprint.rs:762-769 | The lines of every name are in ascending order, the same ones as often as before. |
| `DeliveryDag.Validate` | scripts/delivery-dag-check.py:7-125 | The passes and the search in order yield the specified outcome: the report, or an attribute error where a lookup or the root loop reaches an entry that is not a dictionary. |
| `DeliveryDag.CheckIds` | scripts/delivery-dag-check.py:16-30 | Missing and duplicate ids in list order, and the set of ids. |
| `DeliveryDag.CheckTask` | scripts/delivery-dag-check.py:41-64 | The reasons on one task in the order of the checks. |
| `DeliveryDag.CheckDependencies` | scripts/delivery-dag-check.py:47-50 | One reason per unknown dependency, in order. |
| `DeliveryDag.CheckPaths` | scripts/delivery-dag-check.py:67-92 | At most one reason per path, in order: absolute, with `..`, outside the repository or not resolvable. |
| `DeliveryDag.CheckProperties` | scripts/delivery-dag-check.py:32-64 | The reasons of all tasks with an id, in list order. |
| `DagReasons.ReportExactly` | scripts/delivery-dag-check.py:16-92 | A report holds a reason on ids or on a task if and only if it applies: a missing or repeated id, a missing key, an unknown dependency, more than 4 files, more than 400 lines, a complete task, or a path that is absolute, has a parent part, leads outside or cannot be resolved. |
| `DagReasons.TaskExactly` | scripts/delivery-dag-check.py:41-92 | The reasons on one task are those that apply to it. |
| `DagReasons.IdsExactly` | scripts/delivery-dag-check.py:16-30 | The reasons on ids are those that apply to the list. |
| `DagReasons.TaskInOrder` | scripts/delivery-dag-check.py:41-92 | The reasons on a task come in the order files, dependencies, number of files, lines, status, paths. |
| `DeliveryDag.Checker.Visit` | scripts/delivery-dag-check.py:98-118 | The recursive visit with its shared sets and reason list is the functional depth-first search, and fails where it does. |
| `DagReasons.CapExactly` | scripts/delivery-dag-check.py:98-105 | A visit at depth 1001 reports the cap and nothing else; at depth 1000 a node under way is still reported as a cycle. |
| `DeliveryDag.Checker.SearchRoots` | scripts/delivery-dag-check.py:120-123 | The root loop appends exactly the reasons of the search from every unvisited non-empty id, and fails where it does. |
| `DeliveryDag.FailsExactly` | scripts/delivery-dag-check.py:112-123 | The run ends in an attribute error if and only if some entry is not a dictionary: the search always reaches it; and the reason on it is never reported. |
| `DeliveryDag.DfsFacts` | scripts/delivery-dag-check.py:98-118 | Every visit keeps the search sound: a reported node is on a real cycle or the cap is reported with more than 1000 tasks, and finished nodes come after their dependencies. |
| `DeliveryDag.SearchDecidesAcyclicity` | scripts/delivery-dag-check.py:94-123 | With at most 1000 tasks and no self-dependent empty id, the search is silent if and only if the relation is acyclic; what it reports is on a cycle, and the depth cap never fires. |
| `DeliveryDag.EmptyReport` | scripts/delivery-dag-check.py:7-125 | An empty report guarantees distinct ids, known dependencies and a reverse topological finish order; the relation is then acyclic if and only if no empty id depends on itself. |
| `DeliveryDag.EmptyReportExactly` | scripts/delivery-dag-check.py:7-125 | For up to 1000 tasks and no self-dependent empty id, the report is empty if and only if every entry is an identified task within the limits on files, lines and status with all paths inside the repository, ids are distinct, dependencies known and the relation acyclic. |
| `DeliveryDag.EmptyIdEscapes` | scripts/delivery-dag-check.py:120-123 | A concrete cyclic task list with an empty report. |
| `RustImpact.BuildPackageGraph` | scripts/rust-impact.py:42-90 | The users of a package are exactly the workspace members with a resolved dependency on it or an explicit hub or parser edge, for any list of packages. |
| `RustImpact.EntriesAreLast` | scripts/rust-impact.py:52-60 | The dictionary holds every id once, with the last package that has it. |
| `RustImpact.LookupExactly` | scripts/rust-impact.py:71-78 | Of several packages with the name of a hub the last one is the hub, and there is none if no package has the name. |
| `RustImpact.AddNodes` | scripts/rust-impact.py:63-69 | The nested loops enter each resolved dependency between workspace members in reverse, and nothing else. |
| `RustImpact.AddParsers` | scripts/rust-impact.py:83-88 | Every parser package is used by both hubs that exist. |
| `RustImpact.Select` | scripts/rust-impact.py:245-259 | The worklist ends with the least set that holds the changed packages and is closed under users; packages reached through a dependency get all their targets, changed ones keep theirs. |
| `RustImpact.AppLeadsNowhere` | scripts/rust-impact.py:248-251 | A change to the desktop app alone selects nothing else, whoever uses it. |
| `RustImpact.SelectUsers` | scripts/rust-impact.py:253-259 | The inner loop selects and queues every user that was not selected, whatever the order of the set. |
| `RustImpact.SelectedIffReached` | scripts/rust-impact.py:245-259 | A package is selected if and only if a chain of users leads to it from a changed one. |
| `RustImpact.DependentsAreSelected` | scripts/rust-impact.py:42-259 | End to end: every direct or indirect dependent of a changed package is selected, with all targets unless it was changed itself. |
| `Evaluate.Evaluate` | scripts/ledger-promote.py:163-343 | The loop over the sorted features gives every feature its verdict; which reasons that has and in which order is `LedgerReasons.ReasonsExactly` and `LedgerReasons.ReasonsInOrder`. |
| `Evaluate.EvaluateFeature` | scripts/ledger-promote.py:196-342 | One feature's reasons, lane, streak and review are those of its verdict. |
| `Evaluate.CompletenessReasons` | scripts/ledger-promote.py:49-84 | The completeness reasons in order. |
| `Evaluate.SplitCompleteness` | scripts/ledger-promote.py:120-135 | The two lists of the split. |
| `Ledger.SelectSplits` | scripts/ledger-promote.py:120-135 | The split loses nothing and reports nothing twice. |
| `Evaluate.CandidateSets` | scripts/ledger-promote.py:284-309 | The loop over declared tests builds the candidate lane; what that lane demands of the recorded outcomes is `LaneRules.CandidateMeans`. |
| `Evaluate.CollectGating` | scripts/ledger-promote.py:179-185 | The set of tests declared by any gating feature. |
| `Evaluate.CollectCandidateTargets` | scripts/ledger-promote.py:188-193 | All integration targets of any candidate lane. |
| `Evaluate.JudgeLane` | scripts/ledger-promote.py:311-324 | The reasons drawn from declared tests, lane, index and integration links. |
| `Evaluate.CountStreak` | scripts/ledger-promote.py:325-330 | The length of the longest prefix of green commits: all counted are green, and the next one is not. |
| `Ledger.EligibleExactly` | scripts/ledger-promote.py:4-13 | Eligible if and only if the streak is long enough and the documented conditions hold: for beta a good successful run, complete evidence, finished work and proven tests; for planned and in_progress readable data, no open gaps and tests proven in their lane and known. |
| `Ledger.FlaggedExactly` | scripts/ledger-promote.py:197-234 | Flagged if and only if stable, on complete evidence of a good run, with an open gap, a failed declared test or no linked integration test; a failed run does not silence the review. |
| `LedgerReasons.ReasonsExactly` | scripts/ledger-promote.py:235-342 | The verdict on a beta, planned or in_progress feature lists a reason if and only if what the reason says holds of the recorded outcomes, the work and the run; it is eligible if and only if it lists none. |
| `LedgerReasons.ReasonsInOrder` | scripts/ledger-promote.py:235-332 | The reasons come in the order of the checks, from the run through the work and the tests to the streak. |
| `LedgerReasons.InformationalExactly` | scripts/ledger-promote.py:120-135 | The informational reasons of planned and in_progress work are those unfinished things that do not block. |
| `LedgerReasons.ReviewExactly` | scripts/ledger-promote.py:197-234 | A stable feature's review lists what holds of it, and the feature is flagged if and only if the review was not skipped and lists something. |
| `LedgerReasons.StatusExactly` | scripts/ledger-promote.py:240-258 | Deferred features are frozen, and features of any other status not promotable. |
| `LedgerReasons.TransitionExactly` | scripts/ledger-promote.py:115-117 | Which move a verdict proposes for each status. |
| `LaneRules.CandidateMeans` | scripts/ledger-promote.py:284-324 | The tests of a planned or in_progress feature are proven in its lane if and only if there are some, as recorded, each passed as a candidate or, declared by a feature of gating status, in the gating lane, none failed in either way, each known and not ignored as a bug, and one of them reaches a target that passed or was seen. |
| `LaneRules.GatingMeans` | scripts/ledger-promote.py:259-324 | The tests of a beta feature are proven if and only if there are some, as recorded, each passed, none failed or ignored as a bug, and one of them is linked to a passed target. |
| `Lanes.CandidatesDoNotInterfere` | scripts/ledger-promote-evidence.py:7-12 | Evidence that differs only in candidate outcomes and targets gives the same verdict on every feature outside the candidate lane. |
| `Lanes.GatingDoesNotInterfere` | scripts/ledger-promote.py:10-13 | Gating outcomes of a planned feature do not reach its verdict unless a gating feature declares one of its tests. |
| `Lanes.UnfinishedWorkIsAllowed` | scripts/ledger-promote.py:120-135 | Progress, pending steps and notes never change eligibility for beta, as long as the data is readable. |
| `Lanes.SoundingMalformedBlocks` | scripts/ledger-promote.py:129-132 | A pending step that mentions malformed data keeps a feature from beta whatever the evidence. |
| `EvidenceChain.Gather` | scripts/ledger-promote-evidence.py:162-189 | The loop stops at the third completed commit; chain and skipped list split the commits looked at, the history holds each commit's votes, and the evidence is the newest completed one's with the whole chain. |
| `EvidenceChain.Poll` | scripts/ledger-promote-evidence.py:176-180 | One commit, evaluated alone at streak 1, extends the history by its votes. |
| `EvidenceChain.RecordVotes` | scripts/ledger-promote-evidence.py:178-180 | Exactly the eligible features get one vote more. |
| `StreakRule.ChainIsNewest` | scripts/ledger-promote-evidence.py:166-184 | The chain is the newest completed commits, three or as many as there are. |
| `StreakRule.NewestCommitsDecide` | scripts/ledger-promote.py:325-333 | On gathered evidence a feature is eligible at streak k (1 to 3) if and only if k completed commits exist and each of the newest k, evaluated alone at streak 1, finds it eligible. |
| `Promoter.LedgerFile.Apply` | scripts/ledger-promote.py:366-430 | One run moves all features by their verdicts, recounts, and rewrites the metadata exactly when something moved or an existing block is stale; without a write nothing changes. |
| `Promoter.LedgerFile.ApplyTransitions` | scripts/ledger-promote.py:370-398 | Promotions and demotions are judged on the ledger as it was before the run. |
| `Promoter.LedgerFile.Update` | scripts/ledger-promote.py:372-398 | One pass rewrites the chosen features only. |
| `Promoter.LedgerFile.CountAll` | scripts/ledger-promote.py:405-423 | The counting loop gives the numbers of features of each status, the total without deferred ones and their average progress. |
| `Promoter.TallyIsCount` | scripts/ledger-promote.py:405-421 | The running count is the number of features with the property. |
| `Promoter.RecountExactly` | scripts/ledger-promote.py:405-423 | Every key of the metadata holds the number of features of its status, complete ones being the stable ones, and the total those not deferred; the progress is their rounded mean, 0 without any. |
| `Promoter.ProgressIsMean` | scripts/ledger-promote.py:408-423 | Whatever bounds the progress of the features not deferred bounds that mean. |
| `LedgerRuns.OneEdgeAtMost` | scripts/ledger-promote.py:115-117 | In one run a feature keeps its whole record or moves along one edge: beta to stable, planned or in_progress to beta, stable to beta only with demotions. |
| `LedgerRuns.PromotionIsStamped` | scripts/ledger-promote.py:373-377 | Whatever becomes stable was beta with all declared tests passed in the gating lane, and is stamped with the link and commit of that run, neither of them empty. |
| `LedgerRuns.DemotionIsMarked` | scripts/ledger-promote.py:387-398 | Whatever leaves stable goes to beta by a demotion on complete evidence and no longer counts as passing. |
| `LaneRules.BetaExactly` | scripts/ledger-promote.py:235-398 | A run takes a planned or in_progress feature to beta, with a note and nothing else changed, if and only if run, work, streak and recorded test outcomes meet the rule; otherwise it leaves the feature alone. |
| `LaneRules.StableExactly` | scripts/ledger-promote.py:235-377 | A run takes a beta feature to stable, passing with progress 100, dated and stamped, if and only if it meets the rule for that. |
| `LaneRules.DemotedExactly` | scripts/ledger-promote.py:197-398 | A run takes a stable feature back to beta, with a note, if and only if demotions are on, the evidence is complete and sound, and there is an open gap, a failed declared test or no linked one. |
| `LaneRules.NoResultNoMove` | scripts/ledger-promote.py:196-398 | A run without results for a feature leaves it alone. |
| `LedgerRuns.RunsMakeATrace` | scripts/ledger-promote.py:366-430 | Every sequence of runs is a trace of such steps, so what holds of traces holds of runs. |
| `LedgerRuns.TraceKeeps` | scripts/ledger-promote.py:366-398 | Over any trace: same features, same tests, steps and gaps, notes only grow, deferred features and those of other status untouched. |
| `LedgerRuns.BetaComesBetween` | scripts/ledger-promote.py:235-258 | From planned or in_progress to stable there is a beta state in between. |
| `LedgerRuns.StableStays` | scripts/ledger-promote.py:387-398 | Without demotions a stable feature is never touched again. |
| `LedgerRuns.NoWayBack` | scripts/ledger-promote.py:370-398 | No feature ever becomes planned or in_progress. |
| `LedgerRuns.TotalIsKept` | scripts/ledger-promote.py:405-422 | The number of deferred features and the total never change. |
| `LedgerRuns.StableIsConserved` | scripts/ledger-promote.py:370-398 | Stable after plus demoted equals stable before plus promoted. |
| `LedgerRuns.RunRecounts` | scripts/ledger-promote.py:400-430 | After a run a metadata block holds the recount; a ledger without one gets one exactly when something moved. |
| `LedgerRuns.RunDates` | scripts/ledger-promote.py:403-425 | A run that changes something dates the block if the evidence has a date; all other entries of the block stay. |
| `LedgerRuns.MetadataIsTrue` | scripts/ledger-promote.py:400-430 | A ledger with metadata ends every sequence of runs with true counts. |
| `LedgerRuns.PromotedIsNotFlagged` | scripts/ledger-promote.py:197-234 | The evidence that promotes a feature to stable never flags it, whatever history and streak. |
| `LedgerRuns.DemotedIsNotEligible` | scripts/ledger-promote.py:259-333 | The evidence that flags a stable feature never promotes it back. |
| `SecondRun.GatingAfter` | scripts/ledger-promote.py:179-185 | A run adds to the tests declared by gating features exactly those of the planned features it takes to beta. |
| `SecondRun.SameRunTwiceExactly` | scripts/ledger-promote.py:366-430 | Applying a run twice is applying it once, metadata included, if and only if no planned or in_progress feature meets a rule again. That is read off the ledger before the run: the rule for stable if the run takes it to beta, else the rule for beta in the lane with the tests that become gating. |
| `SecondRun.TwoStepsOnOneRun` | scripts/ledger-promote.py:235-333 | A complete in_progress feature with gating evidence: one run takes it to beta, the same run again to stable. |
| `SecondRun.SecondRunTakesTheOther` | scripts/ledger-promote.py:284-309 | Two planned features with the same test: one run takes the first to beta, the same run again the second. |
| `LedgerRuns.StableByThreeCommits` | scripts/ledger-promote-evidence.py:162-189 | With the default streak, a beta feature becomes stable in a run on gathered evidence if and only if the three newest completed commits exist and each alone finds it eligible. |
| `QueryScanner.ExpandQuery` | code-graph/src/budget.rs:115-140 | The early-exit scanner returns the first 12 distinct lower-cased maximal alphanumeric runs in the vocabulary. |
| `QueryScanner.EarlyExit` | code-graph/src/budget.rs:133-135 | Twelve tokens after some prefix are the result, whatever follows. |
| `QueryScanner.ExpansionMembers` | code-graph/src/budget.rs:111-140 | Every token is a run of the question and in the vocabulary; one is missing only when twelve are there. |
| `QueryScanner.KeptInOrder` | code-graph/src/budget.rs:111-114 | Tokens keep the order of their first occurrences, so none comes twice. |
| `QueryScanner.SplitVocabTokens` | code-graph/src/budget.rs:144-175 | The distinct fitting tokens among the whole name, its snake parts and its camel humps, lower-cased. |
| `QueryScanner.VocabExactly` | code-graph/src/budget.rs:144-175 | A token is in the vocabulary of a name if and only if it has 3 to 30 bytes and is the lower-cased name, one of its snake parts or one of its humps. |
| `QueryScanner.SplitExactly` | code-graph/src/budget.rs:153-156 | The snake parts hold no underscore and make up the name with underscores between them. |
| `QueryScanner.PushHumps` | code-graph/src/budget.rs:157-173 | The hump buffer yields the camel humps in order. |
| `QueryScanner.HumpsConserve` | code-graph/src/budget.rs:157-173 | The humps joined are the letters and digits of the name in order. |
| `QueryScanner.HumpsHaveShape` | code-graph/src/budget.rs:157-173 | A hump is non-empty, alphanumeric, and has no upper-case letter after its first character. |
| `QueryScanner.HumpsCut` | code-graph/src/budget.rs:157-173 | Every name is its humps with gaps of other characters between them, and a hump that follows another without a gap starts with an upper-case letter. |
| `QueryScanner.HumpsAreUnique` | code-graph/src/budget.rs:157-173 | There is only one way to cut a name so, so these conditions determine the humps. |
| `QueryScanner.BuildVocab` | code-graph/src/budget.rs:178-186 | The vocabulary is the set of the tokens of all names. |
| `QueryScanner.PartsAreFound` | code-graph/src/budget.rs:115-186 | Searching for an indexed identifier keeps each snake part of fitting length, up to the cap. |
| `QueryScanner.HumpIsFound` | code-graph/src/budget.rs:115-186 | Searching for a camel hump of an indexed name, of fitting length, gives that hump alone. |
| `QueryScanner.WholeNameIsFound` | code-graph/src/budget.rs:115-186 | Searching for an indexed alphanumeric name of fitting length gives that name alone. |

## Left out

- Floating point: ranks, weights and similarities are exact reals, so rounding and bit-identical reruns of `rank.rs`, the f32 comparison in `suggest_similar` and the float sum of progress values are not modelled.
- `ranking_margin` and `ranks_in_order` (`rank.rs`), `Confidence`, `normalize_score` and `ResponseMeta` (`confidence.rs`), the `Budget` gate and `compact_to_budget` (`budget.rs`): small members without loops or interplay.
- The order in which the graph library yields neighbours: `pagerank` sorts them, the model starts from the sorted list.
- tree-sitter parsing, `collect_functions`, `function_name`, `parse_ranges` and `fingerprint_source`: a function's syntax tree is an input; a node's text and byte range are taken as they are, so a tree need not come from one source text.
- SHA-256: the window hash and the minhash digest are arbitrary functions, the digest below 2^32.
- Guard variables are sets; the program lists the same names in sorted order.
- `pathlib` and the file system of `delivery-dag-check.py`: whether a path is absolute, has a `..` part and where it leads are functions of the path.
- A root of the delivery DAG that is no list, and tasks whose fields have other JSON types than the schema says (type errors in Python).
- Python's own recursion limit; only the depth cap of 1000 is modelled.
- The early exits of `build_package_graph` on empty metadata, `check_file_impact`, the fallback output and the printed result of `rust-impact.py`; the selection starts from the changed packages with their targets.
- `parse_log`, `collect`, `gh` and git in `ledger-promote-evidence.py`: what was collected for a commit is a function of its SHA.
- The regular expressions and the Rust test index of `ledger-promote.py`: abstract functions; a null SHA or URL is the empty string, and list-valued evidence fields are well-formed.
- The report of `ledger-promote.py`, its echoed per-lane lists, command-line handling and JSON text; the wording of the notes and the text of review reasons are functions.
- Evaluate.Evaluate: the echoed lists and lane names of the report are not part of the verdicts, because no decision reads them.
- Evaluate.EvaluateFeature: the echoed lists of passed and failed tests are not part of the verdict, because no decision reads them.
- `main.rs`, `mcp.rs`, `debug.rs`, `plugin_host.rs`, `contracts.rs`, benches, UI and remaining scripts: plumbing around code that is not part of this model.
