# FunctionalC, verified

FunctionalC runs the same observable pipeline in several ways: the runtime applies
the operators one whole list at a time or pushes each item through all of them; a
planner and a DSL compiler generate loops for it; a graph optimiser rewrites the
planner's loop symbolically; and the audit benchmark holds a version fused by hand.
This project models those executors and the data structures under them, and proves
that the fast forms agree with the simple one: where they do not, it says exactly
when.

Run `dafny verify dfyconfig.toml` (Dafny 4.11). No file depends on anything outside.

| file | models |
|---|---|
| Lists.dfy | list transforms: the plain meaning all executors are compared with, and what each lets through |
| Streams.dfy, Observable.dfy | the runtime executor: as functions on values, and as a class whose methods update contexts, data and flags in place |
| CInt.dfy, Expr.dfy, ExprTree.dfy, ExprText.dfy, ExprFlat.dfy | 64-bit integers; the optimiser's expressions and simplifier, as a function and in place on nodes; its printer and precedence parser; how text with few parentheses reads |
| GraphOpt.dfy, GraphShipped.dfy, GraphDeclarations.dfy | the graph optimiser as a compiler into a small statement language; its code with the simplifier as shipped; what its code declares |
| LoopOps.dfy, GeneratedLoops.dfy, NestedTakeWhile.dfy, StopFlag.dfy, PlannerDeclarations.dfy | the loops that the planner and the DSL generate; takeWhile in nested loops, takeUntil's flag, and what the planner's body declares |
| Engines.dfy, EmittedLoops.dfy | the runtime and the generated loops compared; the optimiser's code compared with the planner's loops |
| Lowering.dfy, LoweredLoops.dfy, Storage.dfy | planning, lowering, validation; what a compiled pipeline computes; storage symbols, sizing and binding |
| Bits.dfy, ProbeTable.dfy, Buckets.dfy, Audit.dfy, AuditTotals.dfy, AuditFiles.dfy, AuditExamples.dfy | the audit pipeline and its tables, on records in memory and on files of disk records; what its digest sums up; two audits worked out |
| TaskQueue.dfy, TaskRuns.dfy, Stopwatch.dfy | the timed task queue, its interleavings, its clock |
| ListPool.dfy | lists and the pool they are recycled through |

The main results, hardest first:

* `EmittedLoops.EmittedCodeIsListTransforms`: the code the graph optimiser emits for a
  chain (parsed, spliced, simplified, materialised, with continue and break) leaves in
  its terminal's variables the fold, or last item, of the operators as list transforms,
  on plain, zipped and nested sources; `EmittedLoops.EmittedReturnsScalar`: the function
  returns what the unoptimised one does.
* `LoweredLoops.CompileAndRun`: a pipeline, planned, lowered, emitted and run, returns
  what its stages, as they were written, make of its source.
* `NestedTakeWhile.NestedTakeWhileExact`, `StopFlag.TakeUntilExact`,
  `GraphDeclarations.NothingDeclaredTwiceExact`: for every chain, exactly when a nested
  loop, a takeUntil and the emitted declarations are what the operators call for.
* `AuditFiles.AuditManual`, `Audit.RunManual`, `Audit.RunPlanner`, `Audit.RunStream`:
  three very different loops yield the digest of one list-transform specification,
  which `AuditTotals.DigestSums` and `AuditTotals.SnapshotTotals` say in sums and counts.
* `Observables.Observable.PopAll` with `Streams.PoppedMatchesStaged`: whichever path
  the runtime takes, it leaves the contexts of the staged path, and its emissions
  exactly when no fused terminal was starved.
* `ExprFlat.FlatRoundTrip`, `ExprText.RoundTrip`, `ExprText.InliningIsBinding`: printing
  then parsing is the identity on every tree, with every pair of parentheses or with as
  few as precedence and left association leave; splicing arguments while parsing is
  substitution.
* `TaskRuns.EveryRunIsSafe`, `TaskRuns.LogSortedExact`: safety of the queue in every
  interleaving, and exactly when execution order is time order.
* `ListPool.Run`: over any run of commands no list is handed to two owners and each
  behaves as a sequence of its own.

Where the code does not do what one would expect, there is a counterexample and the
exact condition:

| what | counterexample | exactly when |
|---|---|---|
| the shipped simplifier | `Exprs.ShippedCounterexample`, `GraphShipped.ShippedLoopError` | `Exprs.ShippedNodeExact`, `Exprs.ShippedChainExact`, `GraphShipped.ShippedShiftsExact` |
| a variable declared twice in the optimised body | `GraphDeclarations.FilterScanFilterDeclaresTwice` | `GraphDeclarations.ValueDeclaredOnceExact`, `GraphDeclarations.NothingDeclaredTwiceExact` |
| the value's view declared twice in the planner's body | `PlannerDeclarations.FilterMapFilterDeclaresTwice` | `PlannerDeclarations.ViewDeclaredOnceExact` |
| a helper whose parameters have other names than the emitter assumes, whose locals chain, or that mentions a captured global | `GraphOpt.IdentityMisread`, `GraphOpt.NameDiffers` | `GraphOpt.CapturedExact` |
| takeWhile on the nested source | `NestedTakeWhile.NestedTakeWhileDiffers` | `NestedTakeWhile.NestedTakeWhileExact`, `NestedTakeWhile.StatelessTakeWhileExact`, `NestedTakeWhile.OneTakeWhileExact` |
| an item dropped behind a takeUntil in the DSL | `StopFlag.DroppedStopDiffers` | `StopFlag.TakeUntilExact`, `StopFlag.FilterAfterTakeUntilExact` |
| a first key that equals NULL | `Engines.NullKeyDiffers` | `Engines.NullKeyExact` |
| a clock read before the lock | `TaskRuns.StaleReadOutOfOrder` | `TaskRuns.LogSortedExact` |
| sums kept in 16 bits | `AuditExamples.NarrowedDigestDiffers` | `Audit.NarrowSnapshotsExact`, on the snapshots |
| records of one id that disagree about their school | `AuditExamples.DisagreeingFileDiffers` | `AuditFiles.LoadedIsOwnExact`, on the records |

## Model

| member | source | states |
|---|---|---|
| Streams.FusedMatchesStaged | core/src/observable.c:225-312 | for a streamable chain and token-free input, the fused loop leaves the contexts of the staged path, and the same emissions exactly when no terminal is starved; starved, the staged path emits NULL and the fused one nothing |
| Streams.PushAllIsStaged | core/src/observable.c:353-397 | without a terminal, pushing items one at a time is applying the stages to whole lists |
| Streams.StagedCons | core/src/observable.c:225-312 | a staged run on a list is one fused push of its first item, then the staged run resumed on the rest |
| Streams.MergeRowsAt | core/src/observable.c:866-911 | element i of the row of outer item oi stands at index oi*inner+i |
| Streams.MergeRowsLength | core/src/observable.c:866-911 | there are as many pairs as outer times inner items |
| Streams.TrailingToken | core/src/observable.c:99-105 | a list that does not end in the completion token counts whole; a token at its end, and only that one, is left out |
| Streams.MergeMapMeans | core/src/observable.c:866-911 | on lists free of the token, mergeMap yields outer times inner pairs, the pair of outer item oi and item i at oi*inner+i |
| Streams.ReduceMeans | core/src/observable.c:961-980 | with or without its completion token a list reduces to the fold from 0 |
| Streams.LastMeans | core/src/observable.c:994-1003 | with or without its completion token a list's last is its last item |
| Streams.StreamableMeans | core/src/observable.c:112-135 | streamable are exactly the chains of map, filter, scan, distinctUntilChanged and skipWhile, with a reduce or a last at the end at most |
| Streams.MergeThenFusedMatchesStaged | core/src/observable.c:338-351 | a leading mergeMap followed by the fused tail matches the staged path unless the tail's terminal is starved |
| Streams.PoppedMatchesStaged | core/src/observable.c:314-401 | whichever of the three paths the chain selects, contexts are those of the staged path, and emissions exactly when no fused terminal is starved |
| Streams.BatchesDoNotMatter | core/src/observable.c:70-76 | without a terminal, any splitting of the input into batches, one item each included, emits and leaves the same as one batch, completion tokens included |
| Streams.DeliverConcat | core/src/observable.c:314-336 | two batches in a row are their concatenation in one |
| Observables.CompilationLosesNothing | core/src/observable.c:137-212 | expanding the compiled stages gives back the chain in order, for the whole pipeline and for every prefix |
| Observables.MergeMaps | core/src/observable.c:137-212 | the merging loop yields the chain with its maximal runs of maps merged: no two adjacent compiled stages are maps |
| Observables.StageChainIsStreamable | core/src/observable.c:112-135 | the flag depends on the original chain only: per-item stages and then at most one terminal |
| Observables.Compile | core/src/observable.c:137-212 | the compiled pipeline and both of its flags, in terms of the chain |
| Observables.MapApply | core/src/observable.c:774-790 | the loop computes the list transform on the items before the token |
| Observables.ActiveSize | core/src/observable.c:99-105 | one completion token at the very end is not counted |
| Observables.FilterApply | core/src/observable.c:473-486 | the loop keeps exactly the items that pass, in order |
| Observables.ReduceApply | core/src/observable.c:961-980 | the loop computes the fold from NULL over the items before the token |
| Observables.MergeMapApply | core/src/observable.c:866-911 | the nested loops compute the rows of pairs |
| Observables.Observable.ScanApply | core/src/observable.c:921-937 | the running folds, and the accumulator left in the context |
| Observables.Observable.DistinctUntilChangedApply | core/src/observable.c:597-609 | the items whose key differs from the last kept one, and the key left in the context |
| Observables.Observable.SkipWhileApply | core/src/observable.c:684-695 | the items from the first that fails the predicate on, and the flag left in the context |
| Lists.ScanIsRunningFold | core/src/observable.c:921-937 | element i of a scan is the fold of the first i+1 items |
| Lists.FilterSnoc | core/src/observable.c:473-486 | a filter decides on each item by itself and keeps the order |
| Lists.WhileSplits | core/src/observable.c:684-695 | takeWhile and dropWhile split a list at the first item that fails |
| Lists.DedupSnoc | core/src/observable.c:597-609 | distinctUntilChanged lets an item through unless its key is that of the item right before it |
| Lists.ThroughFirstMeans | core/tools/dsl_codegen.c:356-375 | takeUntil lets through the items up to and including the first that matches, and all where none does |
| Observables.Observable.Pipe | core/src/observable.c:458-472 | the stages, with their own contexts, take the place of whatever was piped before; no stage changes nothing; a compiled form stays, so it is up to date only if there was none, no stage, or it happens to fit |
| Observables.Observable.EnsureCompiled | core/src/observable.c:137-212 | a chain is compiled once: a compiled form that is there stays, an empty chain gets none, and nothing else changes |
| Observables.Observable.StreamItem | core/src/observable.c:225-312 | one item through the compiled stages updates the contexts as one push through the original chain |
| Observables.Observable.StreamItems | core/src/observable.c:225-312 | the loop over the items, stopping at the token, is the push of all active items |
| Observables.Observable.PopStreaming | core/src/observable.c:225-312 | the whole fused executor: contexts, emissions, completion |
| Observables.Observable.PopStaged | core/src/observable.c:353-401 | the staged path: contexts, emissions, completion |
| Observables.Observable.Drain | core/src/observable.c:379-397 | hands out the items before the token in order and completes exactly when there is one |
| Observables.AfterTokenMeans | core/src/observable.c:379-397 | a list is its items before the token, the token, and what a drain leaves; without a token a drain leaves nothing |
| Observables.Observable.PopMerged | core/src/observable.c:338-351 | mergeMap on the whole list, then the fused executor on what follows |
| Observables.Observable.PopAll | core/src/observable.c:314-401 | a batch takes the path its chain selects and leaves exactly the contexts, emissions, completion, leftover items and ready flag of that path; a completed or idle observable is unchanged |
| Observables.Observable.PushObservable | core/src/observable.c:70-76 | for every chain: a completed observable is unchanged; otherwise the waiting items and the new one are popped as one batch, on the path the chain selects; on a fused chain with nothing waiting that is delivering a batch of one |
| Observables.Observable.PushRun | core/src/observable.c:70-76 | any run of pushes is the deliveries of one item each, in order; without a terminal, the delivery of them all as one batch |
| CInt.WrongSign | core/planner/graph_opt.c:552-553 | taking a constant for its negation is off by twice the constant, modulo 2^64 |
| Exprs.SimplifyKeepsValue | core/planner/graph_opt.c:500-587 | with the sign of an inner SUB respected, simplification keeps the value of every expression in every environment, in 64-bit arithmetic |
| CInt.DivideTruncates | core/planner/graph_opt.c:521-521 | the quotient rounds toward zero: the remainder is smaller than the divisor and has the sign of the dividend |
| Exprs.ApplyExact | core/planner/graph_opt.c:516-526 | each of the six operators yields the result of C on 64 bits and no other: sums, differences and products modulo 2^64, truncated quotients, 1 or 0 for a comparison |
| Exprs.NeutralVanishes | core/planner/graph_opt.c:509-586 | adding or subtracting 0, multiplying or dividing by 1 vanishes, and operations on constants fold to the result of C, with either rule |
| Exprs.SimplifyIdempotent | core/planner/graph_opt.c:500-587 | simplifying twice is simplifying once, with either rule |
| Exprs.SimplifyShrinks | core/planner/graph_opt.c:500-587 | the tree never grows, with either rule |
| Exprs.ShippedIsSound | core/planner/graph_opt.c:545-567 | where no merge meets an inner SUB, the shipped rule is the sign-respecting one |
| Exprs.ShippedNodeExact | core/planner/graph_opt.c:545-567 | a shipped merge over an inner SUB is off by twice the inner constant; a node keeps its value if and only if it does not merge over a SUB of anything but 0 or the least integer |
| Exprs.SimplifiedChain | core/planner/graph_opt.c:545-567 | an additive chain simplifies to the variable, or to the variable and one constant, both given by an arithmetic fold over the terms, with either rule |
| Exprs.ShippedChainError | core/planner/graph_opt.c:545-567 | a whole additive chain is off by twice the sum, taken from that fold alone, of the constants carried with the wrong sign |
| Exprs.ShippedChainExact | core/planner/graph_opt.c:545-567 | a chain keeps its value if and only if that sum vanishes |
| Exprs.AlternatingCollapses | core/planner/graph_opt.c:500-587 | an alternating +1 -1 chain of any length collapses to x or x+1 |
| Exprs.ShippedCounterexample | core/planner/graph_opt.c:552-553 | the shipped rule turns (x-1)+1 into x+2, in every environment a different value |
| ExprTree.Node.SimplifyInPlace | core/planner/graph_opt.c:500-587 | the rewriting of a tree of nodes in place returns exactly the shipped simplification, on its own nodes and new ones, shared with nobody |
| ExprTree.Node.Rewrite | core/planner/graph_opt.c:509-586 | one node, its operands simplified: folded, replaced by an operand, merged or left |
| ExprTree.Node.Merge | core/planner/graph_opt.c:552-566 | the merge relinks the base under the merged constant, or returns the base |
| ExprTree.Node.Clone | core/planner/graph_opt.c:295-319 | the same tree on nodes of its own |
| Exprs.SubstIsBinding | core/planner/graph_opt.c:387-408 | evaluating after substitution is evaluating with the arguments bound |
| ExprText.RoundTrip | core/planner/graph_opt.c:358-498 | parsing the printed form of any tree uses all the text and gives the same tree, negative constants and nested comparisons included |
| ExprFlat.FlatRoundTrip | core/planner/graph_opt.c:358-498 | any tree, written with only the parentheses that precedence and left association demand, parses to itself and uses all the text |
| ExprFlat.LeftAssociates | core/planner/graph_opt.c:411-473 | x - y - z and x / y * z group to the left |
| ExprFlat.ProductsBindTighter | core/planner/graph_opt.c:411-473 | x + y * z multiplies first, (x + y) * z adds first |
| ExprFlat.ComparisonsBindLoosest | core/planner/graph_opt.c:475-498 | x < y - z and x / y == z compare last |
| ExprFlat.NumbersRead | core/planner/graph_opt.c:372-379 | digits with an optional sign are the sum of their place values, clamped to 64 bits |
| ExprText.ResolveMeans | core/planner/graph_opt.c:381-408 | a name takes one step through the first alias of that name and is then the argument of the first parameter of the name it led to, or a plain variable |
| ExprText.InliningIsBinding | core/planner/graph_opt.c:387-408 | parsing a helper with arguments spliced in for parameters and aliases evaluates to the helper with each parameter bound to its argument |
| ExprText.CmpIsSubst | core/planner/graph_opt.c:475-498 | parsing in a scope is parsing bare text and substituting, for every text, failures included |
| ExprText.Parser.ParsePrimary | core/planner/graph_opt.c:358-409 | the cursor-moving method parses what the grammar function parses and stops where it stops |
| ExprText.Parser.ParseMul | core/planner/graph_opt.c:411-441 | the same for products, left to right |
| ExprText.Parser.ParseAdd | core/planner/graph_opt.c:443-473 | the same for sums, left to right |
| ExprText.Parser.ParseCmp | core/planner/graph_opt.c:475-498 | the same for at most one comparison |
| ExprText.ParseHelper | core/planner/graph_opt.c:794-843 | the parser's run on a helper text succeeds exactly when all the text is an expression, with that tree |
| GraphOpt.InlineReadsLoop | core/planner/graph_opt.c:794-843 | whatever a helper mentions, the inlined code evaluates it with the parameters bound to their arguments and every other name read in the loop |
| GraphOpt.ConventionalKept | core/planner/graph_opt.c:917-1096 | a helper without locals whose parameters are literally raw; raw_accum and raw_next; left_raw and right_raw; or the three zipped names keeps all its names when it mentions no variable of the loop |
| GraphOpt.PairReads | core/planner/graph_opt.c:926-938 | spliced and called, left_raw and right_raw are the loop's left and right |
| GraphOpt.TripleReads | core/planner/graph_opt.c:939-952 | the three names of a triple map are the loop's zipped_left, zipped_right and right |
| GraphOpt.FoldReads | core/planner/graph_opt.c:978-1006 | raw_accum is the scan's or the reduction's accumulator, raw_next the item |
| GraphOpt.ItemReads | core/planner/graph_opt.c:953-977 | raw is the item |
| GraphOpt.LocalsRead | core/planner/graph_opt.c:387-408 | a local set to a parameter means its argument, spliced or called; a local set to that local does when called, and spliced is whatever the first local's name is in the loop |
| GraphOpt.CapturedExact | core/planner/graph_opt.c:794-843 | a name of a helper means the same spliced and called, in every state of the loop and for all globals, if and only if parser and call find it at the same position of their parameter lists, or it is the variable that holds the argument at the call's position, or both find the same global and no variable of the loop has its name; for a helper that returns that one name, that is when the inlined code returns what the call does |
| GraphOpt.NameDiffers | core/planner/graph_opt.c:794-843 | for every other name there are a state of the loop and globals for which the two meanings differ |
| GraphOpt.IdentityMisread | core/planner/graph_opt.c:957-967 | the identity helper, its parameter called anything but `raw`, returns its argument when called and, inlined, whatever that name is in the loop |
| GraphOpt.InlineIsCall | core/planner/graph_opt.c:794-843 | the inlined and simplified helper evaluates to the helper called with the operands' values, its parameters bound by position and its locals set in order, globals included, when all its names are kept |
| GraphOpt.EmittedExact | core/planner/graph_opt.c:845-1111 | a body is emitted if and only if every helper parses, with either simplifier |
| GraphOpt.MaterializeStands | core/planner/graph_opt.c:639-668 | materialising assigns `value` what the current expression stood for |
| GraphOpt.OpSimulates | core/planner/graph_opt.c:917-1096 | the code emitted for one operator takes the operator's own continue, break or fall-through and leaves slots and current expression in step |
| GraphOpt.BodyIsDirect | core/planner/graph_opt.c:845-1111 | on every item the emitted body and the operators run on `value` exit alike and leave every slot alike, `should_break` included |
| GraphOpt.CompiledLoopIsDirect | core/planner/graph_opt.c:845-1111 | the same over any number of items and rows, `break` leaving the inner loop only |
| GraphOpt.EmitLoopBody | core/planner/graph_opt.c:845-1111 | the emitting loop appends exactly the specified body, and gives up exactly when some helper does not parse |
| GraphOpt.PipelineHasBreakingOp | core/planner/graph_opt.c:670-685 | finds exactly the chains with a take, takeWhile or first |
| GraphOpt.FirstEndsLoop | core/planner/graph_opt.c:1082-1111 | a final first ends the loop with the first item that reaches it |
| GraphShipped.ShippedLoopIsDirect | core/planner/graph_opt.c:845-1111 | as shipped, the optimiser is correct wherever no spliced helper puts an inner SUB under a merge |
| GraphShipped.ShippedShiftsExact | core/planner/graph_opt.c:545-567 | as shipped, maps by constants ending in last store over any row what the operators store if and only if the wrong mass of the constants is 0 |
| GraphShipped.ShippedRowError | core/planner/graph_opt.c:545-567 | the value stored is off by exactly that mass |
| GraphShipped.ShippedLoopError | core/planner/graph_opt.c:552-553 | as shipped, map(x-a), map(x+b), last stores 2a more than the operators do, for every item |
| Exprs.SimplifyKeepsUses | core/planner/graph_opt.c:500-587 | simplification keeps exactly the variables of an expression, with either rule |
| GraphDeclarations.BodyDeclares | core/planner/graph_opt.c:845-1111 | how often the emitted body declares a variable, counted on the operators alone |
| GraphDeclarations.ValueDeclaredOnceExact | core/planner/graph_opt.c:639-668 | the body declares `value` at most once if and only if no operator that materialises is followed by one that cuts the tie to `value` (scan, reduce, a pair or triple map, a map that does not use `raw`) and later by another that materialises |
| GraphDeclarations.NothingDeclaredTwiceExact | core/planner/graph_opt.c:639-668 | it declares nothing twice if and only if, besides, there are no two distinctUntilChanged |
| GraphDeclarations.FilterScanFilterDeclaresTwice | core/planner/graph_opt.c:639-668 | a filter, a scan and a filter again declare `value` twice |
| LoopOps.PushCons | core/planner/astgen.c:2035-2480 | a chain of list transforms on a list is one pass of the loop body on the first item, then the chain resumed on the rest |
| LoopOps.LoopIsChain | core/planner/astgen.c:2035-2480 | the single generated loop, planner's or DSL's, lets through exactly the items of the list transforms: limits of 0 and less, breaks, and a continue that skips the end-of-body test included |
| LoopOps.FreshChainIsPlain | core/tools/dsl_codegen.c:245-260 | with the variables as they are declared, a chain is that of the plain transforms: take and skip the whole count, no flag passed, no key kept |
| StopFlag.TakeUntilExact | core/tools/dsl_codegen.c:231-382 | whatever stands around a takeUntil, the DSL's loop computes the list transforms if and only if the first item that sets `break_after_emit` is not dropped behind it, or leaving the takeUntil out makes no difference to these items |
| StopFlag.FilterAfterTakeUntilExact | core/tools/dsl_codegen.c:231-382 | takeUntil(c) then filter(p) in the DSL is the list transform if and only if p passes c or nothing that follows the first c |
| StopFlag.DroppedStopDiffers | core/tools/dsl_codegen.c:231-382 | takeUntil(5), then a filter that drops 5, on 5, 1: the loop goes on to the 1, the list transforms end before it |
| GeneratedLoops.PlannerBody | core/planner/astgen.c:2035-2480 | the emitted body with its shared view and `should_break` is one pass, and `should_break` is set exactly when a take is used up |
| GeneratedLoops.PlannerRow | core/planner/astgen.c:1917-2486 | one loop over a row, with its terminal |
| GeneratedLoops.RunPlanner | core/planner/astgen.c:2489-2550 | the segment function returns the reduced or last value of the items its loops let through, which are those of the plain list transforms for one row, and for any rows without takeWhile |
| GeneratedLoops.PlannerLoopIsListTransforms | core/planner/astgen.c:1917-2550 | that scalar is the one of the list transforms, for every source; on the nested source for chains without takeWhile |
| GeneratedLoops.RowsByIndex | core/planner/astgen.c:1917-1958 | the rows of every source, value by value: counters from 1, pairs of equal counters, and for the nested source a row for each outer counter |
| PlannerDeclarations.ViewDeclaredOnceExact | core/planner/astgen.c:2004-2027 | the body declares the value's view at most once if and only if no operator that does not look at the value stands between two that do |
| PlannerDeclarations.FilterMapFilterDeclaresTwice | core/planner/astgen.c:2004-2027 | a filter, a map and a filter again declare it twice |
| NestedTakeWhile.NestedTakeWhileExact | core/planner/astgen.c:1943-1953 | for every accepted chain, with any takeWhiles in it, and every rows, the nested loop computes the list transforms of all items if and only if nothing comes through any row behind the first one that a takeWhile stops |
| NestedTakeWhile.StatelessTakeWhileExact | core/planner/astgen.c:1943-1953 | for maps, filters and takeWhiles in any order that is a condition on each row by itself: no row stops, or every row behind the first that does comes out empty |
| NestedTakeWhile.OneTakeWhileExact | core/planner/astgen.c:1943-1953 | with one takeWhile, maps and filters in front of it and maps behind: every row passes entirely, or behind the first that does not every row is empty or starts with an item that fails, as the maps and filters in front leave it |
| NestedTakeWhile.NestedTakeWhileDiffers | core/planner/astgen.c:1943-1953 | for every number of rows from 2 on the condition fails on rows 1, 2, and a count comes out as the number of rows instead of 1 |
| GeneratedLoops.DslBody | core/tools/dsl_codegen.c:231-382 | the DSL's loop body is one pass, `break_after_emit` included |
| GeneratedLoops.RunDsl | core/tools/dsl_codegen.c:196-382 | the fused function returns what its loop lets through, reduced or not; where no operator behind a takeUntil drops items, that is the list of the operators applied in order as list transforms |
| GeneratedLoops.Items | core/tools/dsl_codegen.c:196-215 | a range holds its first number, its last and all between, in order |
| Engines.EnginesAgree | core/src/observable.c:225-312 | one chain, the same items from the runtime's fused loop, the planner's loop, the DSL's loop and the list transforms |
| Engines.NullKeyExact | core/src/observable.c:597-609 | the runtime's distinctUntilChanged, starting from NULL, is the generators' one if and only if the input is empty or its first key is not NULL |
| Engines.NullKeyDiffers | core/src/observable.c:597-609 | an item whose key is NULL, first of all, is dropped by the runtime and let through by the planner's loop |
| EmittedLoops.EmittedCodeIsPlannerLoop | core/planner/graph_opt.c:845-1111 | on plain, zipped and nested sources the optimised code leaves in the terminal's variables what the planner's loops hand to the terminal |
| EmittedLoops.EmittedCodeIsListTransforms | core/planner/graph_opt.c:845-1111 | which is the fold, or last item, of the operators as list transforms over all the values of the source, a leading pair or triple map included: for one row with every chain, for any rows without takeWhile |
| EmittedLoops.SourceRows | core/planner/astgen.c:1917-1958 | the rows of a source are the values of the items its loop headers bind, as the leading map reads them |
| EmittedLoops.EmittedReturnsScalar | core/planner/graph_opt.c:845-1111 | for every source and with fresh variables the optimised function returns the scalar that the planner's loops return |
| Lowering.PlanStages | core/planner/simplify.c:206-269 | the stage loop: one planned stage a stage, a candidate exactly when every stage fits, and exactly the diagnostics of those that do not, in order |
| Lowering.ComplaintsJustified | core/planner/simplify.c:206-269 | a stage is complained about exactly when it does not stand for itself, has a run-time argument, or is a terminal one before the end, each under its own code |
| Lowering.BuildExecutionPlan | core/planner/simplify.c:153-354 | planning succeeds exactly when every pipeline is accepted, and complains exactly about the others |
| Lowering.LowerStage | core/planner/lower.c:172-358 | one turn of the lowering loop: the operator and the slots it needs, appended |
| Lowering.LowerSegment | core/planner/lower.c:83-361 | lowering succeeds exactly for supported sources and stages, with the counts of the source, operators and stages one to one, and each operator owning slots of its own kinds and seed |
| Lowering.Validate | core/planner/planner_ir.c:152-186 | validation of a pipeline passes exactly when every slot index is in range |
| Lowering.LowerExecutionPlan | core/planner/lower.c:363-401 | a whole plan lowers exactly when every pipeline is a candidate with a supported source and supported stages, and then each one is lowered from its own plan |
| Lowering.ValidateProgram | core/planner/planner_ir.c:152-186 | a program is valid exactly when every pipeline is |
| Lowering.Compile | core/planner/lower.c:363-401 | planning, lowering and validation of a whole program succeed exactly when every pipeline is accepted |
| Lowering.AcceptedLowers | core/planner/lower.c:83-361 | an accepted pipeline lowers: kinds match, slots in range, terminals last |
| Lowering.AcceptedMeans | core/planner/simplify.c:153-354 | accepted are exactly the pipelines with a known source, self-contained stages without run-time arguments, reduce, last and first at the end only, and the map of its pairs or triples right behind a zipped source |
| Lowering.SlotsStart | core/planner/lower.c:198-339 | every accumulator starts with the literal its stage was written with, or with 0; every counter, flag and key with 0 |
| Lowering.CountsKept | core/planner/lower.c:108-160 | a lowered source has the counts it was written with |
| LoweredLoops.ReadLoop | core/planner/astgen.c:2035-2480 | the emitter reads from the operators of a compiled pipeline exactly the source, the steps, the seed and the terminal of the stages as written |
| LoweredLoops.CompileAndRun | core/planner/lower.c:363-401 | planning, lowering and running a pipeline succeed exactly when it is accepted, and return what its stages, as list transforms with their own seeds and numbers, make of its source |
| LoweredLoops.SlotsNamed | core/planner/lower.c:198-339 | each operator's slots have the names the emitted code uses for it |
| LoweredLoops.DeclaresFresh | core/planner/astgen.c:2499-2505 | the variables a compiled pipeline declares are the fresh ones that the emitted loop starts from |
| Lowering.SlotsUnshared | core/planner/lower.c:26-42 | no slot belongs to two operators |
| Lowering.NamesDistinctExact | core/planner/lower.c:198-339 | slot names are distinct if and only if scan, take, skip, skipWhile and distinctUntilChanged occur at most once each |
| Storage.CollectStorageSymbols | core/planner/astgen.c:148-184 | the symbols in order of first use, each once; fails exactly when there are more than 256 |
| Storage.AppendUnique | core/planner/astgen.c:70-95 | appends a name that is neither empty nor present, and fails exactly when a new one finds the list full |
| Storage.AlignUpSize | core/planner/astgen.c:1705-1709 | the mask computes the first multiple of a power of two from the value on |
| Storage.StorageBytes | core/planner/astgen.c:1731-1769 | the sizing pass computes the end of the layout |
| Storage.BindStorage | core/planner/astgen.c:1771-1811 | the binding pass gives each symbol one aligned region, disjoint and in order, inside what the sizing pass asked for |
| Storage.PlanStorage | core/planner/astgen.c:1696-1814 | the three together: every symbol a pipeline names gets one region of its size |
| Storage.RegionsFit | core/planner/astgen.c:1771-1811 | regions follow one another without overlap and the last ends exactly at the total |
| Storage.DatasetSize | benchmarks/edu_complex_benchmark_manual.c:164-172 | the loader's size pass is the layout of its six parts |
| Storage.DatasetOffsets | benchmarks/edu_complex_benchmark_manual.c:183-201 | the loader's cursor pass hands out the starts of the same layout |
| Storage.DatasetFits | benchmarks/edu_complex_benchmark_manual.c:164-201 | the parts are aligned, apart, in order, and end where the block ends |
| Bits.MaskIsMod | benchmarks/edu_complex_benchmark.c:289-301 | masking with a power of two less one is the remainder |
| ProbeTable.NextPowerOfTwo | benchmarks/edu_complex_benchmark_manual.c:64-72 | the doubling loop gives a power of two at least the value and below twice the value |
| ProbeTable.DoublingEnds | benchmarks/edu_complex_benchmark_manual.c:64-72 | in 32 bits the loop ends if and only if the value is at most 2^31 |
| ProbeTable.SchoolCapacity | benchmarks/edu_complex_benchmark_manual.c:149-149 | the capacity exceeds the record count, so a slot stays empty |
| ProbeTable.FoundMeans | benchmarks/edu_complex_benchmark.c:631-643 | a probe stops at the key's slot if the map has the key and at an empty slot if it does not |
| ProbeTable.WriteStores | benchmarks/edu_complex_benchmark.c:645-674 | writing there updates the map and keeps the probing invariant |
| ProbeTable.SomeEmpty | benchmarks/edu_complex_benchmark.c:631-643 | with fewer keys than slots some slot is empty |
| ProbeTable.ProbeEndsExact | benchmarks/edu_complex_benchmark.c:631-643 | some slot stops a probe if and only if the table has the key or not every slot is taken |
| ProbeTable.Table.Find | benchmarks/edu_complex_benchmark.c:631-643 | wherever some slot stops it the unbounded probe ends, at the slot the key belongs to |
| ProbeTable.Table.Apply | benchmarks/edu_complex_benchmark.c:645-674 | one update of the table is one update of the map |
| ProbeTable.Table.Write | benchmarks/edu_complex_benchmark.c:645-674 | storing through the found pointer updates the map |
| ProbeTable.Table.Run | benchmarks/edu_complex_benchmark.c:631-674 | any run of updates with no more distinct keys than slots leaves the map that the updates fold to |
| ProbeTable.FoldUpdatesMeans | benchmarks/edu_complex_benchmark.c:645-674 | in that map every key has what its own updates, in order, make of its entry |
| ProbeTable.LoadSchools | benchmarks/edu_complex_benchmark_manual.c:203-236 | the pool never runs out, and every record gets the school made from the first record of its id |
| Buckets.ChooseTopBuckets | benchmarks/edu_complex_benchmark.c:676-701 | each of the six is the best of those not chosen before, ties to the lower bucket |
| Buckets.ChooseTopTwo | benchmarks/edu_complex_benchmark_manual.c:310-337 | the single scan finds the first two of the six-way selection |
| Audit.ConsumeIsStages | benchmarks/edu_complex_benchmark_manual.c:550-593 | the fused end of the loop body over all snapshots is filter, distinct by signature, skip while cold and reduce over whole lists |
| AuditTotals.DigestSums | benchmarks/edu_complex_data.py:156-319 | the digest of a record list counts the kept snapshots and sums their enrolments and risks, with their highest tier and last school; fewer than four records give all zeroes |
| AuditTotals.TableTotals | benchmarks/edu_complex_data.py:241-265 | after any windows the aggregate of a school is the counts, sums, mixed compliance and bucket counts of the windows of that school |
| AuditTotals.SnapshotTotals | benchmarks/edu_complex_data.py:241-302 | snapshot i is taken of the totals over its school's windows up to the i-th |
| AuditTotals.ObservedMeans | benchmarks/edu_complex_data.py:267-295 | averages round down, the risk is not below 0, tiers begin at 7000 and 9000, and the signature mixes them with the two busiest buckets |
| AuditTotals.RiskEffects | benchmarks/edu_complex_data.py:272-281 | the raw risk grows by 37 for an absence, 19 for a late arrival, 5 and 13 for special index and support, 1 for every 4 of funding, and falls by 2 for a point of the composite |
| AuditTotals.RiskBase | benchmarks/edu_complex_data.py:272-281 | it is 15000 and the low bits of the compliance mix where nothing else counts |
| Audit.FinishManual | benchmarks/edu_complex_benchmark_manual.c:539-593 | the hand-written arithmetic, tests and digest update of one item are one step of that |
| Audit.RunContext | benchmarks/edu_complex_benchmark_manual.c:413-597 | for every record list of four or more the hand-fused loop over the direct-index table ends where the specified run ends, with the special index of the first record of each id |
| Audit.RunManual | benchmarks/edu_complex_benchmark_manual.c:339-597 | for every record list the table built and the loop run yield the digest specified with that index; where records of one id share it, the specified digest |
| Audit.ManualContext.Grow | benchmarks/edu_complex_benchmark_manual.c:506-537 | one window grows exactly its school's aggregate, with the special index of the first record of the id, cached when the entry is first used |
| Audit.CachesAreSpecified | benchmarks/edu_complex_benchmark_manual.c:506-515 | where records of one id share the special index, caching it changes no digest |
| Audit.HitTwelve | benchmarks/edu_complex_benchmark_manual.c:524-537 | the twelve written-out hits are the hits of all tags |
| Audit.GrowManual | benchmarks/edu_complex_benchmark_manual.c:515-537 | the written-out updates grow the aggregate as specified |
| Audit.GrowLooped | benchmarks/edu_complex_benchmark.c:792-806 | so do the updates with the hits in a loop |
| Audit.ManualContext.constructor | benchmarks/edu_complex_benchmark_manual.c:339-393 | the table spans the school ids from least to greatest, all entries unused |
| AuditFiles.LoadedShareSchools | benchmarks/edu_complex_benchmark_manual.c:203-236 | loaded records of one id share their school, whatever the file says |
| AuditFiles.LoadedIsOwnExact | benchmarks/edu_complex_benchmark_manual.c:203-236 | the loader gives every record the school of its own fields, as the specification reads it, if and only if the records of each id agree about it |
| AuditFiles.Load | benchmarks/edu_complex_benchmark_manual.c:203-236 | for every file the records in memory are the disk records with the school of the first record of their id |
| AuditFiles.AuditManual | benchmarks/edu_complex_benchmark_manual.c:613-636 | loading and running: for every file the digest specified for the loaded records, and for the records' own fields where the records of each id agree |
| AuditFiles.AuditPlanner | benchmarks/edu_complex_benchmark_planner.c:145-183 | the same for the planner's benchmark, with 16-bit sums |
| AuditExamples.DisagreeingFileDiffers | benchmarks/edu_complex_data.py:183-250 | a file of six records of one id whose special indices disagree: the loaded risk is 15000, that of the records' own fields 15015 |
| Audit.PopulateSnapshot | benchmarks/edu_complex_benchmark.c:703-753 | the snapshot with all six buckets is the specified one |
| Audit.UpdateDatabase | benchmarks/edu_complex_benchmark.c:780-810 | the probing table changes as the map of aggregates does, each entry keeping the school it was made with |
| Audit.FinishStaged | benchmarks/edu_complex_planner_generated.c:141-163 | the generated stages after the snapshot are one step of filter, distinct, skip while and reduce |
| Audit.RunPlanner | benchmarks/edu_complex_planner_generated.c:120-166 | for every record list with no more ids than slots the generated loop over the probing table yields the specified digest, with 16-bit sums and snapshots that show the school of the first record of the id |
| Audit.StreamItem | benchmarks/edu_complex_benchmark.c:977-1016 | one turn of the stream: the four slots hold the window, and again after the oldest is overwritten |
| Audit.RunStream | benchmarks/edu_complex_benchmark.c:941-1038 | the stream in batches over the four-slot window yields the same digest for the records it builds |
| Audit.NarrowSnapshotsExact | benchmarks/edu_complex_benchmark.c:551-552 | the 16-bit sums leave the snapshots of a run as specified if and only if, in every window, absences and late arrivals fit in 16 bits or the raw risk is at most 0, where it is cut off anyway |
| Audit.NarrowedIsSpecified | benchmarks/edu_complex_data.py:155-319 | then the digest is the specified one |
| AuditExamples.NarrowedDigestDiffers | benchmarks/edu_complex_benchmark.c:551-552 | six records of one school with 65536 absences in every window: the digest's risk is 15000 in place of 2439832 |
| Audit.NarrowRiskExact | benchmarks/edu_complex_benchmark.c:551-552 | the 16 bits change the raw risk of an item, before it is cut off at 0, by 37 and 19 times what they cut off, and leave it exactly when they cut nothing |
| Audit.FloorDiv | benchmarks/edu_complex_benchmark.c:235-244 | C's quotient corrected downward is the floor, for positive and negative denominators |
| TaskQueue.TaskList.Insert | core/src/task.c:31-45 | relinking inserts before the first later task and reports whether at the head |
| TaskQueue.TaskList.Walk | core/src/task.c:38-41 | the walk stops at the last task not later than the new one |
| TaskQueue.TaskList.PopDue | core/src/task.c:80-85 | takes the head exactly when it is due |
| TaskRuns.EveryRunIsSafe | core/src/task.c:48-117 | in every interleaving: pending sorted with equal times in insertion order, every inserted task in exactly one of pending, taken and freed, none taken early, a sleeping worker waiting for the earliest task |
| TaskRuns.TakesEarliest | core/src/task.c:80-85 | each pop takes a due task that precedes all others pending |
| TaskRuns.WorkerDecides | core/src/task.c:72-107 | an awake worker takes a task if and only if some pending one is due and sleeps otherwise; no insertion and no stop leaves it asleep |
| TaskRuns.ServesAll | core/src/task.c:72-92 | once all pending tasks are due, the worker's turns take them all in their order |
| TaskRuns.ShutdownFrees | core/src/task.c:138-156 | from every reachable state a shutdown is possible, takes no further task and frees exactly the pending ones |
| TaskRuns.InsertedSorted | core/src/task.c:31-45 | insertion keeps the list sorted by time, then insertion order |
| TaskRuns.StepKeeps | core/src/task.c:48-117 | every single step keeps all of that |
| TaskRuns.OvertakenRun | core/src/task.c:65-68 | once an insertion came too late, some task stays behind one it should precede, whatever follows |
| TaskRuns.LogSortedExact | core/src/task.c:65-68 | a drained run executes in order of time and insertion if and only if no insertion came with a time before that of a task already taken |
| TaskRuns.AtomicRunsInOrder | core/src/task.c:65-68 | if clock reading and insertion are one step and delays are not negative, the whole log is sorted |
| TaskRuns.StaleReadOutOfOrder | core/src/task.c:65-68 | as they are two steps, a run that takes tasks out of order exists, for every delay between them |
| Stopwatch.ElapsedMonotone | core/src/stopwatch.c:11-19 | the reading never decreases as the clock advances |
| Stopwatch.ElapsedClose | core/src/stopwatch.c:11-19 | it is less than 1 ms off, above the true time only when a second was borrowed |
| Stopwatch.ElapsedFloorExact | core/src/stopwatch.c:11-19 | it is the whole milliseconds if and only if no second was borrowed or the difference is a whole number of them |
| Stopwatch.Watch.Elapsed | core/src/stopwatch.c:11-19 | a reading is at least every earlier one of the same start |
| Stopwatch.Watch.Start | core/src/stopwatch.c:7-9 | restarts the clock at 0 |
| Stopwatch.Deadline | core/src/task.c:15-26 | the deadline is exactly now plus the wait, and normalised exactly when the wait is not negative or its remainder does not borrow |
| Stopwatch.WaitFor | core/src/task.c:96-101 | the worker's wait, always positive, has a normalised deadline |
| ListPool.NormalizedCapacity | core/src/list.c:15-21 | the result is the smallest power of two from 2 on that is large enough |
| ListPool.List.Reserve | core/src/list.c:58-76 | keeps the items; a fresh array only when it must grow |
| ListPool.List.PushBack | core/src/list.c:78-88 | the sequence with the item appended; a full list doubles |
| ListPool.List.PushFront | core/src/list.c:90-101 | the sequence with the item in front |
| ListPool.List.Pop | core/src/list.c:115-128 | the last item, the rest staying; nothing from an empty list |
| ListPool.List.PopStart | core/src/list.c:137-154 | the first item, the rest moving down |
| ListPool.List.Remove | core/src/list.c:185-195 | the sequence without the item; an index out of range changes nothing |
| ListPool.Pool.InitList | core/src/list.c:23-52 | an empty list, large enough, of no other owner, sharing no array with any: the topmost fitting one of the pool for small capacities, otherwise a new one of exactly the normalised capacity |
| ListPool.Pool.TakeFrom | core/src/list.c:28-37 | the scan takes out exactly the topmost list that is large enough, the top one filling its place, and nothing when there is none |
| ListPool.Pool.FreeList | core/src/list.c:167-183 | pooled exactly when small, without payload and while there is room; otherwise known no longer |
| ListPool.Run | core/src/list.c:15-195 | over any run of allocations, changes, payloads and single frees the live lists are distinct, none is pooled, no pooled list has a payload, and each holds what its own commands put there |
| ListPool.EffectsAreOwn | core/src/list.c:15-195 | each list ends with what its own commands make of it, whatever happens to the others |

## Left out

- Runtime `take`, `takeUntil`, `skip`, `skipUntil`, `takeWhile`, `distinct`, `mapTo`, `buffer`, `throttleTime`, `first` and n-ary `zip` have no fused form and appear as an arbitrary whole-list stage: their in-band sentinel and NULL conventions are not modelled.
- Observables.Observable.Pipe: a query piped twice shares one context in the program; here every place in the chain has its own.
- Observables.Observable.PopAll: an observable that is piped again after it was compiled, which goes on with the old compiled form, is outside `Valid`.
- Streams.PoppedMatchesStaged: the input and all intermediate values are free of the completion token 0xDEADBEEF; the methods of the class say what happens when they are not.
- `last` on a list holding only the completion token reads before the array in the program; the model gives NULL there.
- ExprTree.Node.SimplifyInPlace: nodes that the program frees are merely no longer reachable.
- Exprs.SimplifyKeepsValue: division by zero, undefined in C, has the value 0 that constant folding gives it, and the least integer divided by -1 wraps.
- GraphOpt.BodyIsDirect: a repeated declaration in one loop scope counts as an assignment, where a C compiler would reject it (`GraphDeclarations.NothingDeclaredTwiceExact` says when there is one); every name of a helper is kept (`GraphOpt.CapturedExact` says which names are, and what becomes of the others).
- GeneratedLoops.PlannerBody: the same for the value's view (`PlannerDeclarations.ViewDeclaredOnceExact`).
- GraphOpt.EmitLoopBody: extracting a helper's parameters, locals and return text from C source is not modelled; helpers come as parameter names, a return text, and locals that are each set to a name. Emitted statements are a datatype, not text.
- Lowering.Compile: registry names are constructors rather than strings, and allocation does not fail.
- LoweredLoops.CompileAndRun: pipelines over the counting sources with the plain stages, each stateful family once as distinct names demand, and integer literals; helpers are functions by name, and on the nested source without takeWhile (`NestedTakeWhile.NestedTakeWhileExact` says what happens with it).
- Planner `first`, `mapTo`, external buffers and the in-place map, scan and reduce: `first` stores no result, `mapTo` has no emitter case, and the others differ from the plain ones by pointers only.
- Storage.AlignUpSize: alignments are powers of two and sizes are unbounded, so an address space never wraps; so are the sums and counts of the audit digest.
- Audit.RunPlanner: `mix32` and the arithmetic on a record's own fields are uninterpreted functions; at most 8192 school ids, the fixed capacity of the table: the probe for one more never ends (`ProbeTable.ProbeEndsExact`).
- Audit.NarrowSnapshotsExact: exact on the snapshots; on the digest the condition is sufficient (`Audit.NarrowedIsSpecified`), as later stages may drop the snapshots that differ.
- Audit.RunManual: reading files, the error exit for an empty one, reuse of the arena between runs and profiling.
- AuditFiles.AuditManual: that records of one id agree is exact for the records in memory; for the digests it is sufficient, as a particular arithmetic may make different schools yield one digest.
- ListPool.Run: double frees, use after free, the C integer overflow of capacities beyond 2^30, and `list_get` with an index out of range.
- TaskRuns.EveryRunIsSafe: condition variables are reduced to the steps between lock and unlock with one millisecond clock; that a woken worker eventually runs is not stated.
- C code model, rendering, string builder, diagnostics text, command lines, process launching and progress bars: containers and plumbing.
