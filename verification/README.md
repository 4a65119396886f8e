# Verified models of the instrumented Julia runtime and its benchmark programs

This project models the hardest algorithms of the repository in Dafny and proves what they promise.
Code that changes tables, arrays, nodes or locks step by step is modelled by classes and methods with loops, or,
where several threads interleave, by a state machine over their atomic steps. Expressions and recursion are
functions, and what the methods compute is tied to such functions, about which the lemmas speak.

| part | files |
|---|---|
| Type inference: worklist, lattice, soundness | `WellFounded`, `Domain`, `TypeInference`, `Worklist`, `InferenceState`, `InferenceSoundness`, `UndefinedSlots`, `JuliaLattice`, `StaleCondition` |
| Deleting dead code, folding branches, renumbering labels | `DeadCode`, `OptimizedRuns` |
| Cycles of recursive calls | `CallCycles` |
| khash: probing, kick-out rehash, map operations | `Probing`, `Rounding`, `KHash` |
| uthash: chains, insertion order, expansion, merge sort | `MergeSorting`, `HashSort`, `HashTable` |
| fasta: the ring of blocks filled by several threads | `Fasta`, `FastaSafety`, `FastaRuns`, `FastaBlocks`, `RandomStream` |
| chameneos: the rendezvous of any number of creatures | `Chameneos`, `ChameneosRuns` |
| fannkuch: permutations by index, bounded flips, blocks | `Fannkuch`, `FannkuchFlips`, `FannkuchProgram` |
| pidigits: three spigots | `Spigot`, `SpigotPrograms` |
| Method tables: invalidation, matches with a validity interval | `Invalidation`, `MethodMatches`, `MatchContents` |
| revcomp: reversing wrapped text in place | `Revcomp`, `RevcompProcess` |
| binary trees: four ways to make and sum up | `BinaryTrees`, `BinaryTreeNodes` |
| Call log: recording, printing, parsing | `Signatures`, `CallLog`, `CallLogParser` |
| Shared | `Wrappers`, `Division` |

`dafny verify dfyconfig.toml` checks the whole project.

Positions in code and arrays count from 0 where the source counts from 1, except in the tree arrays.

## Where the code does less than it seems to

- A branch condition that was stored in a slot or SSA value is refined with the slot's state at the branch, not at
  the comparison. `StaleCondition.InferStale` applies inference to a program that stores a test, reassigns the tested
  slot and branches on the stored test; it ends in exactly the facts written there, and the program's run returns a
  value outside the inferred type. Coverage of all runs is therefore proved for code whose branches use no stored
  test, neither directly nor through calls such as `!` that hand a condition on. That is `FreshConditions`, which
  looks at the text of the code, the types of the arguments and which calls test or hand on, and not at what inference
  finds. A negated test made in the branch is fine (`StaleCondition.TestedInPlace`).
- A khash table of 2^31 live keys cannot take another one: the request for more buckets wraps around, the search
  returns home, and the caller gets a bucket with another key and the code for "already present". The contract of
  `KHash.Table.Put` says that this is the only case, and `KHash.FillUp` gets there.
- The comment in `benchmarks/cshootout/fannkuch.c:109-112` allows lengths up to 35; the loop makes fifteen swaps, so
  33 is the largest length without wrong counts (`FannkuchFlips.EnoughSwaps`).
- One creature and a wanted meeting end in a deadlock, and so does an empty zoo
  (`ChameneosRuns.NeverStuckEarly`).
- The interval returned by a method lookup can contain world 0, where a lookup means something else
  (`MethodMatches.ZeroIsDifferent`).
- The two reverse-complement programs differ on characters outside the code: one writes zero bytes
  (`RevcompProcess.SameRecords`).
- A signature in the call log whose extension is a single character loses it when parsed
  (`Signatures.PrintedThenParsed`).

## Model

| member | source | states |
|---|---|---|
| InferenceFrame.InferenceState.TypeInfWork | julia/base/inference.jl:2638-2783 | from any frame in which everything unexplained is pending, the worklist ends for every program and every lattice without infinite strict ascent; then nothing is pending, every reached statement is explained by the recorded facts, and the facts have only grown, each time by what a reached statement does |
| InferenceFrame.InferenceState.RunFromLowest | julia/base/inference.jl:2644-2781 | one outer round either raises the facts strictly or moves the lowest pending position; this is what the outer loop's termination rests on |
| InferenceFrame.InferenceState.Visit | julia/base/inference.jl:2647-2780 | one visit explains its statement, keeps every other explanation up to what it makes pending, and either stands still or moves the facts strictly up |
| InferenceFrame.InferenceState.Proceed | julia/base/inference.jl:2759-2779 | where the walk goes on after a statement, and that the table has arrived there or the next position is pending |
| InferenceFrame.InferenceState.SideBranch | julia/base/inference.jl:2692-2719 | a conditional branch feeds its target unless its condition is known to be true, and passes on the refined table of the side it continues on |
| InferenceFrame.InferenceState.RecordSSAAssign | julia/base/inference.jl:2848-2864 | an SSA type becomes the new one, stays, or is merged with it, strictly growing if it changes at all, and then exactly its reached readers become pending |
| InferenceFrame.InferenceState.Flow | julia/base/inference.jl:2710-2718 | a statement's entry becomes its join with what arrives, slot by slot no more than the two make it, and a gain is reported only if it is strict |
| InferenceFrame.InferenceState.NextActive | julia/base/inference.jl:2650-2658 | the first pending position from a place on, or the length of the body |
| InferenceFrame.SettledAfterFlow | julia/base/inference.jl:2710-2718 | after a join only the statement joined into can have lost its explanation |
| InferenceFrame.SettledAfterSSA | julia/base/inference.jl:2848-2864 | after an SSA type grows only the recorded readers can have lost their explanation |
| InferenceFrame.Arrived | julia/base/inference.jl:2759-2779 | a statement whose table has arrived where it continues is explained |
| TypeInference.StUpdate | julia/base/inference.jl:2220-2276 | the loop over the slots computes the join and says whether anything changed: a slot is undefined afterwards exactly if it was or arrives so, and its type is the old one, the arriving one, or their merge, the last only when neither state is below the other |
| TypeInference.JoinAbove | julia/base/inference.jl:2220-2290 | a join is above both tables, and when it changes something the new table is strictly above the old |
| TypeInference.JoinTableExact | julia/base/inference.jl:2220-2227 | no slot of a join is wider, or undefined more often, than the two tables make it |
| TypeInference.FactsNoInfiniteAscent | julia/base/inference.jl:2133-2173 | slot tables, SSA types and the result type together have no infinite strict ascent if the lattice has none |
| Worklist.FindSSAValueUses | julia/base/inference.jl:2306-2338 | for each SSA value exactly the statements whose evaluation reads it are listed |
| Worklist.InterpretReadsOnlyUses | julia/base/inference.jl:2072-2096 | interpreting a statement depends on SSA types only through the listed uses |
| Worklist.SatisfiedUnlessUser | julia/base/inference.jl:2848-2864 | an explained statement that does not read a widened SSA value stays explained |
| Worklist.SatisfiedGrows | julia/base/inference.jl:2710-2718 | growth of facts elsewhere keeps a statement explained |
| Worklist.SatisfiedSends | julia/base/inference.jl:2692-2779 | an explained statement has got each table it passes on to where it goes |
| InferenceDomain.EvalSound | julia/base/inference.jl:1932-2044 | whenever an expression evaluates to a value, its abstract value covers that value |
| InferenceDomain.RefinementSound | julia/base/inference.jl:2704-2709 | only expressions that test, or hand on a test, have a condition as their type; a condition computed in the expression itself, also under calls that keep or negate it, is true of the slot it names on either side of the branch |
| InferenceDomain.EvalReadsOnlyUses | julia/base/inference.jl:2306-2338 | an expression's abstract value depends on SSA types only through the values it mentions |
| InferenceSoundness.StepCovered | julia/base/inference.jl:2638-2783 | one concrete step from a covered configuration at an explained statement leads to a covered one, and conditions stay where the text of the code puts them |
| InferenceSoundness.RunsCovered | julia/base/inference.jl:2638-2783 | if all reached statements are explained and no branch uses a stored test, every configuration of every run is covered by the table at its position, the SSA types, and the result type |
| InferenceSoundness.Infer | julia/base/inference.jl:2638-2783 | inference from the argument types ends with facts that explain everything reached and come from the initial facts by single moves of the statements, and that cover all runs of code whose branches use no stored test |
| UndefinedSlots.UndefinedOnlyOnPaths | julia/base/inference.jl:2072-2096 | of all that inference derives: a reached statement lies on a path of the body, and a slot that may be undefined there starts undefined and is left unassigned by some path to the statement |
| UndefinedSlots.NothingAfterBottom | julia/base/inference.jl:2074-2089 | a statement that calls something with an argument that has no value passes nothing on |
| UndefinedSlots.TrueBranchNotTaken | julia/base/inference.jl:2693-2699 | the target of a branch on a literal that is true is not reached if nothing else leads to it |
| JuliaLattice.JuliaSound | julia/base/inference.jl:525-548 | constants, conditions and bounded unions with `isa`, `===`, `!` and `!==` form an instance of all assumptions on lattice and calls: a preorder, upper bounds, no infinite strict ascent, conditions tested in a call or handed on by it |
| JuliaLattice.EgalSound | julia/base/inference.jl:525-548 | `===` decides by constants, disjoint types and singletons, hands on the condition compared with a constant, kept or swapped, and otherwise tests a slot, always soundly |
| JuliaLattice.EgalForwards | julia/base/inference.jl:541-548 | compared with true a condition stays, compared with false it is negated as by `!` |
| JuliaLattice.EgalSplits | julia/base/inference.jl:1727-1737 | comparing a variable with `nothing` splits its type into `nothing` and all the rest |
| JuliaLattice.IsASound | julia/base/inference.jl:1702-1719 | `isa` splits the type of the slot it tests into two parts that cover the two outcomes |
| JuliaLattice.IsASides | julia/base/inference.jl:1708-1713 | of a union the two parts hold exactly the values of either outcome |
| JuliaLattice.NegationSound | julia/base/inference.jl:1823-1831 | `!==` has the negated value of `===` and its condition with the sides swapped |
| JuliaLattice.MergeUpper | julia/base/inference.jl:2182-2218 | the merge is above both its arguments |
| JuliaLattice.UnionsMerge | julia/base/inference.jl:2205-2217 | two unions merge to exactly the union of both, or to Any if neither is in the other and there are more than three members |
| JuliaLattice.MergeIsLeast | julia/base/inference.jl:2205-2217 | a merge is below every small union that both sides are below |
| JuliaLattice.ConditionsMerge | julia/base/inference.jl:2185-2192 | conditions on one variable merge side by side, unless the sides become equal |
| JuliaLattice.LeTransitive | julia/base/inference.jl:2119-2157 | the order on constants, conditions and unions is transitive |
| JuliaLattice.OrderIsInclusion | julia/base/inference.jl:2133-2157 | the order is exactly inclusion of values, except that a type with one value is not below that constant |
| JuliaLattice.HeightAcc | julia/base/inference.jl:2182-2218 | strict ascent through merged types is bounded by a height |
| StaleCondition.StoredConditionBreaksCoverage | julia/base/inference.jl:2693-2709 | the run of a program that stores a test, reassigns the tested slot and branches on the stored test leaves the facts that inference finds for it |
| StaleCondition.InferStale | julia/base/inference.jl:2638-2783 | inference applied to that program ends in exactly these facts, which do not cover its run |
| StaleCondition.StaleInferred | julia/base/inference.jl:2638-2783 | these are the only settled facts that single moves of the statements lead to |
| StaleCondition.StoredTestNotFresh | julia/base/inference.jl:1817-1822 | a body that branches on a stored test, plainly or negated, is told apart by its text |
| StaleCondition.TestedInPlace | julia/base/inference.jl:1817-1822 | the same body with the test made, negated, in the branch is one whose runs are covered |
| DeadCode.TypeAnnotate | julia/base/inference.jl:3130-3170 | the deleting loop keeps exactly the reached statements and metadata, in order, each with the type of its branch condition |
| DeadCode.GotoIfNotElim | julia/base/inference.jl:5137-5162 | the rewriting loop turns each branch on a constant into a jump or into its bare condition, and changes nothing else; no branch with a constant condition is left before the last statement |
| DeadCode.ReindexLabels | julia/base/inference.jl:5352-5390 | labels are renumbered by position and jumps with them; the assertions that a jump has a label hold |
| DeadCode.NumberLabels | julia/base/inference.jl:5352-5368 | the mapping takes each used label to its position and the others to zero |
| OptimizedRuns.GotosKeepLabels | julia/base/inference.jl:5369-5390 | after deletion and branch rewriting every remaining jump still has its label |
| OptimizedRuns.BranchSimulated | julia/base/inference.jl:5137-5162 | a rewritten branch goes where the original one goes on every covered configuration; one reduced to its condition had a target that is never taken |
| OptimizedRuns.StepSimulated | julia/base/inference.jl:3130-3170 | one step of the original is one or two steps of the optimized code, with the same effects |
| OptimizedRuns.OptimizationPreservesRuns | julia/base/inference.jl:3130-3170 | for code whose branches use no stored test, original and optimized code end the same runs with the same result, error and world, and run on forever together |
| OptimizedRuns.OptimizedWellFormed | julia/base/inference.jl:5352-5390 | the optimized code is again well formed: labels unique and jumps resolved |
| OptimizedRuns.OptimizedIsClean | julia/base/inference.jl:3155-3170 | nothing is left of unreached statements but metadata, every other statement stands at its place with labels renumbered, and branches on constants are replaced exactly |
| OptimizedRuns.InferAndOptimize | julia/base/inference.jl:3117-3170 | inference, deletion, branch elimination and relabelling in sequence give a well-formed body that holds exactly the reached statements and metadata, and preserve every run when branches use no stored test |
| CallCycles.UnionCallerCycle | julia/base/inference.jl:2442-2457 | all frames of the second cycle get the first one's list and parent, the list holds both cycles without repetition, and all other frames are as before, and every other frame keeps its own |
| CallCycles.JoinedLists | julia/base/inference.jl:2446-2455 | the joined list names exactly the frames of both cycles, each once |
| CallCycles.MergedPartitioned | julia/base/inference.jl:2442-2457 | merging whole cycles below one parent keeps the partition and the acyclic parents |
| CallCycles.MergeCallChain | julia/base/inference.jl:2459-2471 | exactly the frames of the chain and their cycles are merged into the ancestor's, and each link of the chain gets its backedge once |
| CallCycles.NotYetMerged | julia/base/inference.jl:2464-2469 | the next frame of the chain is in none of the cycles merged before, so its parent can still be followed |
| CallCycles.ResolveCallCycle | julia/base/inference.jl:2480-2496 | the walk up the parents ends; it finds the first cycle with a frame for the callee and merges up to there, or changes nothing when there is none |
| CallCycles.FrameForCall | julia/base/inference.jl:2526-2541 | a call leads to the frame found, or to a new one below the caller, and the partition is kept |
| CallCycles.AddBackedge | julia/base/inference.jl:2433-2438 | a backedge is recorded once |
| KHash.Table.Get | benchmarks/cshootout/Include/khash.h:230-243 | finds the bucket of a key that is present, with its value, and the end otherwise |
| KHash.Table.Put | benchmarks/cshootout/Include/khash.h:307-348 | the key ends up in the returned bucket exactly if it was there or the table was not completely full of 2^31 live keys; other keys keep their values; the code is 0 when the key was there or the table full, 1 for a bucket that was empty, also after a rebuild, and 2 for a tombstone |
| KHash.FillUp | benchmarks/cshootout/Include/khash.h:307-348 | entering 2^31 different keys fills the table, and the next key is refused with the code of a key that is there |
| KHash.Table.FindSite | benchmarks/cshootout/Include/khash.h:319-335 | the search ends at the key, or at a tombstone or empty bucket on its probe path, or, with every bucket live, back home |
| KHash.Table.Enter | benchmarks/cshootout/Include/khash.h:336-347 | writing at that site adds the key and hides or duplicates none |
| KHash.Table.MakeRoom | benchmarks/cshootout/Include/khash.h:310-318 | when the bound is reached the table is rebuilt with the same contents, below the bound unless it has 2^31 buckets; it keeps its size if tombstones take up half of it, and doubles otherwise |
| KHash.Table.Resize | benchmarks/cshootout/Include/khash.h:244-306 | for every requested size the contents stay the same; the number of buckets becomes the next power of two, or nothing happens when that is too small |
| KHash.Rehash | benchmarks/cshootout/Include/khash.h:268-294 | the loop over old buckets ends with all of them moved, and old and new entries together held the map at every round |
| KHash.MoveFrom | benchmarks/cshootout/Include/khash.h:271-293 | the kick-out chain from one bucket ends, keeps the map, and only removes old entries |
| KHash.Rebuild | benchmarks/cshootout/Include/khash.h:256-303 | growing, shrinking or keeping the size gives the same map with every key reachable on its new path |
| KHash.KickOut | benchmarks/cshootout/Include/khash.h:283-286 | exchanging the carried entry with an old one keeps old entries, new entries and the carried one disjoint and complete |
| KHash.TakeOut | benchmarks/cshootout/Include/khash.h:270-276 | taking an old entry out leaves the rest of the map in place |
| KHash.PutDown | benchmarks/cshootout/Include/khash.h:287-291 | putting the carried entry into an empty new bucket completes the map again |
| KHash.FindEmpty | benchmarks/cshootout/Include/khash.h:278-282 | probing reaches an empty bucket when there is one, along occupied buckets only |
| KHash.Table.Delete | benchmarks/cshootout/Include/khash.h:349-355 | deleting a live bucket removes its key, any other index changes nothing |
| KHash.Table.Clear | benchmarks/cshootout/Include/khash.h:223-229 | the map is empty and the buckets are kept |
| KHash.Table.SomeEmpty | benchmarks/cshootout/Include/khash.h:310-318 | below the bound, an allocated table always has an empty bucket |
| Rounding.KRoundUpLeast | benchmarks/cshootout/Include/khash.h:176-176 | the shifts and ors of the bit trick give the least power of two not below the argument up to 2^31, and 0 for 0 and beyond |
| Rounding.SpreadNext | benchmarks/cshootout/Include/khash.h:176-176 | after the five steps every bit below the leading one is set |
| KHash.BucketsFor | benchmarks/cshootout/Include/khash.h:249-250 | the number of buckets is a power of two between 4 and 2^31, the next one above a request in that range, and 4 for any other request |
| KHash.BucketsForPow2 | benchmarks/cshootout/Include/khash.h:311-318 | a request for one bucket less than a power of two keeps that many, one more doubles them, except at 2^31 |
| KHash.BoundIsRounded | benchmarks/cshootout/Include/khash.h:300-301 | the bound is 0.77 times the number of buckets, rounded |
| Probing.ProbesDistinct | benchmarks/cshootout/Include/khash.h:234-240 | the first n steps of triangular probing on a power of two n visit different buckets |
| Probing.ProbesCover | benchmarks/cshootout/Include/khash.h:234-240 | and so they visit every bucket |
| Probing.FirstReturn | benchmarks/cshootout/Include/khash.h:236-239 | the walk is back at its first bucket at step 2n-1 and not before |
| Probing.ProbeStep | benchmarks/cshootout/Include/khash.h:238-238 | adding the growing step to the masked index gives the next triangular probe |
| MergeSorting.StableSort | julia/src/uthash.h:970-1052 | bottom-up merging gives a sorted sequence with the same items, equivalent ones in their old order, for every total preorder |
| MergeSorting.StableSortIsUnique | julia/src/uthash.h:970-1052 | no other sequence is sorted and has the same equivalent items in the same order |
| MergeSorting.MergeStable | julia/src/uthash.h:997-1028 | merging two sorted runs, the first one winning ties, keeps equivalent items in order |
| MergeSorting.PassRuns | julia/src/uthash.h:984-1042 | a pass over sorted runs of one length leaves sorted runs of twice the length |
| HashSort.Sort | julia/src/uthash.h:970-1052 | relinking the nodes in place gives the sorted list with consistent next, prev, head and tail, with the run length as a 32-bit word |
| HashSort.SortPass | julia/src/uthash.h:980-1046 | one pass over the linked runs, and the count of merges tells whether the list was one pair of runs |
| HashSort.MergeRuns | julia/src/uthash.h:996-1037 | the inner loop links the merge of two runs to the list built so far and leaves the rest of the list alone |
| HashSort.Walk | julia/src/uthash.h:986-995 | the step over the first run stops after its length or at the end of the list |
| HashTable.Table.Find | julia/src/uthash.h:827-846 | returns an item with this hash value and key, and NULL only if the table has none |
| HashTable.Table.Add | julia/src/uthash.h:396-414 | the item is appended to the insertion order and every structural invariant holds again; the buckets double exactly when the item's bucket gets too long and expansion is not off, and are otherwise the same array unless the table was empty |
| HashTable.Table.Delete | julia/src/uthash.h:450-477 | the item is gone from the order and its bucket, every structural invariant holds again, and the bucket array is the same |
| HashTable.Table.Replace | julia/src/uthash.h:254-262 | find, delete and add in a row: the item with that hash value and key, if there is one, is taken out and returned, and the new one is last in the order |
| HashTable.Build | julia/src/uthash.h:396-414 | any number of items added one by one to a new table and then sorted |
| HashTable.Table.Expand | julia/src/uthash.h:915-963 | twice as many buckets with the same items, each where its hash value says; the ideal length, the excess over it, the multipliers and the two flags are as documented |
| HashTable.Table.Sort | julia/src/uthash.h:970-1052 | sorting the table changes the order of the list only |
| HashTable.Table.PassesCheck | julia/src/uthash.h:515-561 | the structural invariant is everything the integrity check compares: links in both directions, bucket counts, and their sum |
| HashTable.CountsAgree | julia/src/uthash.h:527-545 | if every item is in the bucket of its hash value, the bucket counts add up to the number of items |
| HashTable.AddToBucket | julia/src/uthash.h:849-860 | a new item becomes the first of its chain, with back links and count |
| HashTable.RemoveFromBucket | julia/src/uthash.h:871-883 | an item is unlinked from its chain, wherever it is in it |
| HashTable.AppendList | julia/src/uthash.h:278-284 | an item becomes the last of the list |
| HashTable.Unlink | julia/src/uthash.h:460-472 | an item is unlinked from the list, and head and tail follow |
| HashTable.MoveAll | julia/src/uthash.h:933-949 | moving chain by chain ends with exactly the same items in the new buckets, the excess counted |
| HashTable.MoveItem | julia/src/uthash.h:936-947 | one item moves to the front of its new chain while the old chains stay walkable |
| HashTable.IdealIsCeiling | julia/src/uthash.h:889-911 | the ideal chain length is the number of items over the number of buckets, rounded up |
| FastaSafety.StepPreserves | benchmarks/cshootout/fasta.c:199-293 | every step of every thread keeps the invariant: blocks in use form an arc of the ring in claim order, each owned by one worker or finished, random numbers drawn in order, output sequential so far |
| FastaSafety.ClaimPreserves | benchmarks/cshootout/fasta.c:232-241 | claiming the block found extends the arc by one |
| FastaSafety.DrawPreserves | benchmarks/cshootout/fasta.c:243-247 | numbers drawn in the critical section continue the one stream |
| FastaSafety.FillPreserves | benchmarks/cshootout/fasta.c:251-284 | filling outside the critical section touches no other worker's block |
| FastaSafety.FinishPreserves | benchmarks/cshootout/fasta.c:287-289 | the unlocked status write hands over a block that holds the letters of its claim |
| FastaSafety.OutputPreserves | benchmarks/cshootout/fasta.c:103-140 | writing the block at the head of the ring appends the next part of the sequential text |
| FastaSafety.SearchPreserves | benchmarks/cshootout/fasta.c:212-219 | the search ends at the slot after the arc, or at the head when the ring is full |
| FastaSafety.BlockTextWraps | benchmarks/cshootout/fasta.c:113-137 | the lines written for a finished block are the wrapped letters of its claim |
| FastaRuns.InUseIsAnArc | benchmarks/cshootout/fasta.c:210-234 | the blocks in use are exactly the claimed and not yet written ones, from the head on |
| FastaRuns.OutputIsPrefix | benchmarks/cshootout/fasta.c:103-140 | at any time the output is a prefix of what one thread would write |
| FastaRuns.NeverStuck | benchmarks/cshootout/fasta.c:221-226 | until the main thread is done some thread can move |
| FastaRuns.StepDecreases | benchmarks/cshootout/fasta.c:199-293 | every step lowers a bound on the steps still to come |
| FastaRuns.DoneIsComplete | benchmarks/cshootout/fasta.c:292-293 | when the main thread is done the text is complete and the seed is that after one draw a character |
| FastaRuns.ParallelIsSequential | benchmarks/cshootout/fasta.c:153-293 | under every schedule the run ends, only the end stops it, and the text is the sequential program's |
| RandomStream.DrawsInClosedForm | benchmarks/cshootout/fasta.c:91-98 | the number after any count of draws is (3877^i * seed + 29573 * (1 + 3877 + ... + 3877^(i-1))) modulo 139968 |
| RandomStream.FullPeriod | benchmarks/cshootout/fasta.c:91-98 | from every seed the stream returns to it after exactly the multiples of 139968 draws |
| RandomStream.DrawsDistinct | benchmarks/cshootout/fasta.c:91-98 | within one period no number is drawn twice |
| RandomStream.Lifting | benchmarks/cshootout/fasta.c:91-98 | a power of 2 or 3 divides the sum of the first powers of a suitable multiplier exactly if it divides their number |
| RandomStream.LetterWrittenInParallel | benchmarks/cshootout/fasta.c:153-293 | every letter of the text written under any schedule is the one selected by its draw in closed form |
| FastaBlocks.FillBlock | benchmarks/cshootout/fasta.c:251-284 | the column and line counters put each letter where the block text expects it and touch nothing else |
| FastaBlocks.BlockQueue.WriteBlock | benchmarks/cshootout/fasta.c:113-137 | the in-place line feeds and the line lengths write exactly the block's text |
| FastaBlocks.BlockQueue.OutputBlocks | benchmarks/cshootout/fasta.c:103-140 | the loop over the ring leaves the state that repeated single steps of the model lead to |
| FastaBlocks.FlushedBySteps | benchmarks/cshootout/fasta.c:103-140 | that state is reached by the steps of the writing worker alone |
| ChameneosRuns.StepPreserves | benchmarks/pyshootout/chameneosredux.py:56-111 | no step fails, and every step keeps the invariant of tokens, guests, ids and counts |
| ChameneosRuns.SignalPreserves | benchmarks/pyshootout/chameneosredux.py:59-62 | a creature that signals is not one already at the meeting place |
| ChameneosRuns.MeetPreserves | benchmarks/pyshootout/chameneosredux.py:96-111 | the two ids of a meeting are those of the last two registrations |
| ChameneosRuns.PairsAreSuccessive | benchmarks/pyshootout/chameneosredux.py:92-109 | each meeting pairs a registration with the one before it, and the two differ |
| ChameneosRuns.EveryRunIsSafe | benchmarks/pyshootout/chameneosredux.py:56-111 | in every run with any number of creatures no unlocked lock is released, nobody meets itself, each count is the number of meetings taken part in, the counts sum to twice the meetings, and the hues keep their sum modulo three |
| ChameneosRuns.EveryRunEnds | benchmarks/pyshootout/chameneosredux.py:90-111 | with enough creatures every run is finite and stops only after all meetings |
| ChameneosRuns.NeverStuckEarly | benchmarks/pyshootout/chameneosredux.py:90-111 | no run gets stuck early exactly if there are two creatures, or one and no meeting is asked for |
| ChameneosRuns.TooFewGetStuck | benchmarks/pyshootout/chameneosredux.py:90-95 | with fewer creatures some run gets stuck |
| Chameneos.MetIsMeetings | benchmarks/pyshootout/chameneosredux.py:97-105 | the counts are the numbers of meetings of each creature |
| Chameneos.HuesConserved | benchmarks/pyshootout/chameneosredux.py:14-24 | the complement rule keeps the sum of the hues modulo three |
| Fannkuch.NextIsSuccessor | benchmarks/cshootout/fannkuch.c:149-163 | one next-permutation step leads from the permutation and digits of an index to those of the next |
| Fannkuch.IndexIsSteps | benchmarks/cshootout/fannkuch.c:57-72 | what is built directly for an index is what that many steps from the identity lead to |
| Fannkuch.PermutationsDistinct | benchmarks/cshootout/fannkuch.c:57-72 | the permutations of different indices differ, and each is a permutation |
| Fannkuch.PermutationByDigit | benchmarks/cshootout/fannkuch.c:57-72 | the permutation of an index is that of the index without its leading digit, every value moved up by the digit, and the last place has the value moved there |
| Fannkuch.NextAdds | benchmarks/cshootout/fannkuch.c:153-154 | the carry loop adds one to the factorial digits unless all are full |
| Fannkuch.CountsValue | benchmarks/cshootout/fannkuch.c:61-65 | the digits taken off by division are the factorial digits of the index |
| FannkuchFlips.ReverseSettles | benchmarks/pyshootout/fannkuchredux.py:57-64 | every flip strictly raises the weighted sum over the values in their own place, so flipping ends |
| FannkuchFlips.FlipsIsFirst | benchmarks/cshootout/fannkuch.c:83-128 | the flip count is the first number of prefix reversals after which 0 is in front |
| FannkuchFlips.BoundedKeeps | benchmarks/cshootout/fannkuch.c:94-128 | a round with bounded swaps keeps a permutation and raises the same sum, for every length |
| FannkuchFlips.BoundedIsPlain | benchmarks/cshootout/fannkuch.c:83-128 | the form with the first value kept apart counts the plain flips for lengths up to 33 |
| FannkuchFlips.LongMiscounted | benchmarks/cshootout/fannkuch.c:108-123 | for every longer length there is a permutation that it miscounts |
| FannkuchFlips.EnoughSwaps | benchmarks/cshootout/fannkuch.c:108-123 | the two counts agree for all permutations of a length exactly if it is at most 33 |
| FannkuchProgram.StartAt | benchmarks/cshootout/fannkuch.c:57-72 | the arrays hold the permutation and digits of the block's first index |
| FannkuchProgram.StepNext | benchmarks/cshootout/fannkuch.c:149-163 | the in-place step computes the next permutation and digits |
| FannkuchProgram.CountFlips | benchmarks/cshootout/fannkuch.c:83-128 | the in-place loop counts the rounds of the bounded form |
| FannkuchProgram.RunBlock | benchmarks/cshootout/fannkuch.c:48-146 | a block's checksum and maximum are those of its index range |
| FannkuchProgram.BlocksCombine | benchmarks/cshootout/fannkuch.c:49-50 | sums and maxima of neighbouring ranges combine to those of the whole |
| FannkuchProgram.ChecksumIsDifference | benchmarks/cshootout/fannkuch.c:133-136 | up to length 33 the checksum is the flips of the permutations of even index less those of odd index |
| FannkuchProgram.MaximumIsGreatest | benchmarks/cshootout/fannkuch.c:137-140 | up to length 33 the maximum is reached by some permutation and passed by none |
| FannkuchProgram.Pfannkuchen | benchmarks/cshootout/fannkuch.c:27-172 | the blocks cover all n! indices exactly; up to length 33 the checksum is the flips over the even indices less those over the odd ones, and the maximum is the greatest flip count |
| FannkuchProgram.CountsFlips | benchmarks/cshootout/fannkuch.c:80-143 | up to length 33 the summands are plain flip counts |
| FannkuchProgram.TwelveDivides | benchmarks/cshootout/fannkuch.c:10-16 | factorials from 4 on divide into twelve equal blocks |
| Spigot.EndsMove | benchmarks/cshootout/pidigits.c:29-36 | a term moves both ends of the interval inwards, since it maps the interval from 3 to 4 into itself |
| Spigot.SumsOfSeries | benchmarks/cshootout/pidigits.c:29-36 | after k terms the offset over the denominator is the sum of the first k summands 2, 2/3, 4/15, ... of Euler's series for pi, and the scale is half the next one |
| Spigot.StaysSettled | benchmarks/cshootout/pidigits.c:29-36 | digits that both ends agree on are never contradicted by later terms |
| Spigot.DigitsAgree | benchmarks/cshootout/pidigits.c:48-62 | two outputs settled after any numbers of terms agree as far as the shorter goes |
| Spigot.NextDigitRange | benchmarks/cshootout/pidigits.c:14-21 | the next digit read off either end is between 0 and 9 |
| SpigotPrograms.TakingOutKeeps | benchmarks/cshootout/pidigits.c:23-27 | taking a digit out commutes with taking terms: the state depends on the number of terms and the digits only |
| SpigotPrograms.TermKeeps | benchmarks/cshootout/pidigits.c:29-36 | and so does taking a term |
| SpigotPrograms.Quotients | benchmarks/cshootout/pidigits.c:54-56 | the two quotients agree exactly if the next digit is settled, and then are that digit |
| SpigotPrograms.OneDivision | benchmarks/jlshootout/pidigits.jl:39-42 | the remainder test agrees with comparing two quotients |
| SpigotPrograms.CSpigot.Digits | benchmarks/cshootout/pidigits.c:38-62 | any number of rounds of the main loop emits exactly the digits settled at a term when the extraction test also holds |
| SpigotPrograms.CSpigot.ExtractDigit | benchmarks/cshootout/pidigits.c:14-21 | truncating division and word conversion give the quotient when it fits |
| SpigotPrograms.JuliaDigits | benchmarks/jlshootout/pidigits.jl:24-58 | any number of rounds emits the same digits at the same terms as the C program does for the next multiple of ten, and returns the last ten as a number |
| SpigotPrograms.FirstDigits | benchmarks/cshootout/pidigits.c:48-62 | the loop writes 3 at the first term and 1 at the fourth |
| SpigotPrograms.PythonDigits | benchmarks/pyshootout/pidigits_cpython.py:16-53 | any number of rounds emits each digit as soon as it is settled |
| SpigotPrograms.EveryDigitComes | benchmarks/pyshootout/pidigits_cpython.py:30-50 | a digit that is settled after some number of terms is written after at most that many rounds more than there are digits up to it |
| SpigotPrograms.TermForBoth | benchmarks/pyshootout/pidigits_cpython.py:42-50 | the two-numerator step is the term step of the other programs |
| SpigotPrograms.AllProgramsAgree | benchmarks/cshootout/pidigits.c:38-62 | whatever the three programs have emitted, the shorter outputs are prefixes of the longer |
| Invalidation.Invalidate | julia/src/gf.c:1450-1478 | ends on cyclic callers; exactly the smallest set with the root and the callers of its members that are methods valid after the world is cut to that world, exactly the visited methods lose their recorded callers, and nothing else changes |
| Invalidation.CallersCutShort | julia/src/gf.c:1450-1478 | no method reached over recorded callers that are methods stays valid after the world |
| Invalidation.WalkKeepsContained | julia/src/gf.c:1450-1478 | callees still contain their recorded callers afterwards |
| Invalidation.OneMoreCaller | julia/src/gf.c:1468-1473 | a caller's own walk extends the walk so far, whatever cycles lead back |
| Invalidation.AddBackedge | julia/src/gf.c:1521-1542 | a nested caller is recorded once and the nesting of ranges is kept |
| MethodMatches.SameMatches | julia/src/gf.c:2421-2555 | at any world but 0 of the interval returned, the same lookup gives the same matches, with limit, early end and ambiguity filtering |
| MethodMatches.SameInterval | julia/src/gf.c:2428-2446 | and the same interval, if no entry's range ends before the world before its start |
| MethodMatches.IntervalShrinks | julia/src/gf.c:2428-2446 | the interval returned is within the one asked for and holds the world asked for |
| MethodMatches.CannotBeWider | julia/src/gf.c:2428-2446 | just outside the interval some entry that was looked at is active when it was not, or the other way round |
| MethodMatches.ZeroIsDifferent | julia/src/gf.c:2427-2427 | world 0 can lie in the interval, but a lookup there gives other matches |
| MethodMatches.WithinLimit | julia/src/gf.c:2534-2538 | there are never more matches than the limit |
| MatchContents.GivesUpExactly | julia/src/gf.c:2534-2542 | a limited lookup gives up exactly if the lookup with room for everything finds more than the limit, and otherwise gives the same matches and interval |
| MatchContents.LimitOnlyCuts | julia/src/gf.c:2534-2542 | compared with any larger limit a lookup gives the same result if that fits, and gives up if not |
| MatchContents.NeverGivesUp | julia/src/gf.c:2534-2542 | without a limit, or with room for all that the entries can give, a lookup does not give up |
| MatchContents.FoundExactly | julia/src/gf.c:2421-2555 | the answer holds, in order, exactly the active entries that may match and are not hidden behind an earlier leaf match, up to the first one that covers the query, and right before that one the ambiguous methods if they are asked for |
| MatchContents.AmbiguousAdded | julia/src/gf.c:2506-2521 | those are, in order and once each, the overlapping methods not found yet |
| MethodMatches.Visitor.Visit | julia/src/gf.c:2421-2555 | one visit narrows the interval and changes the matches as the lookup over all entries does for one |
| MethodMatches.FindMatches | julia/src/gf.c:2562-2597 | running the visitor computes the lookup over all entries |
| RevcompProcess.Process | benchmarks/cshootout/revcomp.c:19-36 | for every text the in-place procedure leaves header, reversed and looked-up text, wrapped at 60 again, and changes nothing around it |
| RevcompProcess.ShiftFeeds | benchmarks/cshootout/revcomp.c:22-31 | each line's feed moves to where the last line's length says |
| RevcompProcess.ShiftReverses | benchmarks/cshootout/revcomp.c:22-35 | reading the shifted body backwards gives the wrapped reversal |
| RevcompProcess.SwapEnds | benchmarks/cshootout/revcomp.c:33-35 | the exchange from both ends reverses and looks up every byte, the middle one once |
| RevcompProcess.SameRecords | benchmarks/pyshootout/revcomp.py:11-20 | both programs leave the same record exactly if every character is in the code or a zero byte |
| RevcompProcess.WriteLines | benchmarks/pyshootout/revcomp.py:19-20 | the slices of 60 written one by one are the wrapped text |
| Revcomp.TablesAgree | benchmarks/cshootout/revcomp.c:38-43 | the two tables agree on the letters of the code, line feeds and zero bytes, and nowhere else |
| Revcomp.ComplementPairs | benchmarks/pyshootout/revcomp.py:7-10 | complementing a letter of the code complements, one by one, the bases it stands for |
| Revcomp.ComplementTwice | benchmarks/pyshootout/revcomp.py:7-10 | complementing twice gives the letter in upper case, except that U becomes T |
| Revcomp.WrapUndone | benchmarks/pyshootout/revcomp.py:15-16 | deleting the line feeds undoes the wrapping |
| BinaryTrees.CheckIsTotal | benchmarks/jlshootout/binary_trees.jl:134-141 | the recursive check of the recursively made tree is the value less one, or the value itself at depth 0 |
| BinaryTrees.SumIsTotal | benchmarks/jlshootout/binary_trees.jl:36-48 | so is the sum over the array with signs from the number of ones |
| BinaryTrees.CheckNoRec | benchmarks/jlshootout/binary_trees.jl:36-48 | the summing loop computes it |
| BinaryTrees.MakeArrNoRec | benchmarks/jlshootout/binary_trees.jl:22-34 | the filling loop gives every node its value |
| BinaryTrees.MakeArrRec | benchmarks/jlshootout/binary_trees.jl:50-59 | the recursive filling does so below its node and touches nothing else |
| BinaryTrees.MakeArr | benchmarks/jlshootout/binary_trees.jl:61-65 | the recursively filled array holds the whole tree |
| BinaryTrees.SameArrays | benchmarks/jlshootout/binary_trees.jl:22-65 | both ways of filling give the same tree in the array |
| BinaryTrees.CheckArr | benchmarks/jlshootout/binary_trees.jl:67-73 | the recursive check of the array is the check of the recursively made tree |
| BinaryTreeNodes.Make | benchmarks/jlshootout/binary_trees.jl:81-131 | the explicit-stack program builds nodes that represent the recursively made tree, within its fixed stack |
| BinaryTreeNodes.FillInner | benchmarks/jlshootout/binary_trees.jl:118-127 | filling an inner hole leaves exactly the two holes of its children |
| BinaryTreeNodes.CheckWa | benchmarks/jlshootout/binary_trees.jl:143-167 | the explicit-stack check of any tree with at most `height` levels below its root is the recursive one, within stacks of `height + 1` places |
| BinaryTreeNodes.CheckAll | benchmarks/jlshootout/binary_trees.jl:22-171 | all four programs, run for any value and depth, give the same sum |
| Signatures.FindNextArgument | julia/analytics/parse_performance.jl:79-111 | the loop with its stack of open brackets stops where a count of open brackets does |
| Signatures.FindAllArguments | julia/analytics/parse_performance.jl:119-133 | the loop collects the arguments up to the closing bracket, and what follows it |
| Signatures.NestedIsPlain | julia/analytics/parse_performance.jl:119-133 | a name with parameters in any kind of brackets is one argument, whatever commas are inside |
| Signatures.PrintedThenParsed | julia/analytics/parse_performance.jl:55-57 | parsing a printed signature with balanced arguments gives it back exactly if its extension is not a single character |
| Signatures.ParsedThenPrinted | julia/analytics/parse_performance.jl:55-57 | printing what was parsed gives the text back in the same case, also for an empty list of arguments |
| CallLog.RecordCounts | julia/src/gf.c:104-130 | recording a call adds one under its printed function, site, method and call, and changes no other count |
| CallLog.RecordedIsSeen | julia/src/gf.c:104-130 | the recorded counts are the numbers of calls, also when different identities are printed alike |
| CallLogParser.ParsePerf | julia/analytics/parse_performance.jl:548-610 | the loop over the lines, with its current function, site, method and call, computes the fold of single lines |
| CallLogParser.ExportRead | julia/analytics/parse_performance.jl:561-608 | parsing the exported lines of a table adds exactly its counts below the keys the parser is at |
| CallLogParser.SampleExport | julia/analytics/parse_performance.jl:561-608 | the lines printed for one recorded call |
| CallLogParser.CountRead | julia/analytics/parse_performance.jl:591-593 | a line with a number adds to the current call and to no other |
| CallLogParser.NameRead | julia/analytics/parse_performance.jl:594-607 | a printed name, plain or quoted, is read as that name and keeps all counts |
| CallLogParser.DecimalRead | julia/analytics/parse_performance.jl:573-593 | a printed number is read as that number |
| CallLogParser.LogIsRead | julia/src/gf.c:132-150 | recording any calls, exporting and parsing gives for every printed function, site, method and call the number of calls printed so |

## Left out

- Exception regions (`:enter` and `:leave`), `PartialTypeVar`, static parameters and declarations of new variables in type inference.
- Propagation of results between frames: the result type is widened, but callers are not notified, and `stmt_edges` are not recorded.
- Slot tables are values: the source copies a table before it writes to it, so no two statements share one.
- InferenceSoundness.RunsCovered: assumes that no branch uses a stored test (`FreshConditions`), because coverage is false without it (`StaleCondition.InferStale`). The converse is left out: whether a stored test does harm depends on the values that runs meet.
- Conditions on SSA values: the source lets them change nothing, and so they say nothing here.
- JuliaLattice.JuliaSound: is about constants, conditions without nested conditions, and bounded unions; tuples, `typejoin`, type variables and the complexity measure are not in the instance. Conditions whose two sides are conditions themselves would ascend without end.
- DeadCode.TypeAnnotate: does not convert slot types or mark variables that may be undefined; statements carry the abstract value of their condition instead.
- Inlining, allocation and `getfield` elimination, and code generation.
- CallCycles.FrameForCall: does not look at cached results or run inference on the new frame; valid ages of frames are not modelled.
- Allocation failure, two-bit packing of flags, and the hash functions of khash; the load factor is the exact fraction 77/100.
- KHash.Table.Put: the value written by the caller afterwards is a step of its own, `SetValue`.
- Bloom filters, ordered insertion, selection into another hash, and allocation failure of uthash; `hashv & (n - 1)` is written as a remainder, and the number of buckets is not bounded by the word size.
- HashTable.Table.Add: key, hash value and item are fixed when the item is made, not when it is added.
- Choosing a letter by cumulative probabilities in floating point: an arbitrary function of the random number.
- FastaRuns.ParallelIsSequential: iterations are handed out one by one in any order, and each access to shared memory outside the critical section is one atomic step.
- The `k`-th letter is stored by one step that includes the lookup; line feeds are put into a block only when it is written, by `FastaBlocks`.
- The output of counts in words, and the wait before the creatures are released.
- Fannkuch values are unbounded: factorials above 20! do not fit the source's words, and values above 127 do not fit its bytes.
- FannkuchProgram.Pfannkuchen: runs the blocks one after the other; `BlocksCombine` is why their order does not matter.
- SpigotPrograms.CSpigot.Digits: bounds the number of rounds by an argument, because that another digit always comes is a fact about pi; likewise `JuliaDigits` and `PythonDigits`.
- SpigotPrograms.PythonDigits: divides exactly, where the library's `div` rounds the quotient to the precision of its context.
- SpigotPrograms.AllProgramsAgree: speaks of the digits; separators and counts printed after every ten are not modelled.
- Caches of methods and of `invoke`, locks, and the method table's own backedges in `gf.c`.
- Invalidation.Invalidate: requires what the source asserts of each method instance it cuts short, that its range does not end up upside down, of all that it could cut short.
- Subtyping, intersection and the tree of method tables: their answers are arbitrary functions, and entries come in one fixed order.
- Reading records from standard input in revcomp; `Process` is one record with lines of 60 characters.
- RevcompProcess.Process: writes zero bytes for characters from 128 on, with which the C program indexes past the end of its table.
- BinaryTrees.SumIsTotal: integers do not wrap around.
- Meteor, regex, k-nucleotide, floating-point benchmarks, plots and reports.
- CallLog.RecordCounts: the tables are values with their entries in the order of insertion; hash lookup and linking in place are those of `HashTable`, and counts are not bounded by a word.
- CallLogParser.LogIsRead: names and signatures without `#`, and without a line feed; the log is a list of lines.
- The variant of the argument parser for lists without spaces, and merging, sorting and statistics of parsed tables.
