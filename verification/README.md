# Partial dead store elimination, modelled in Dafny

This project models `PDSECorrectnessPass`, an LLVM function pass that sinks
stores to stack variables towards their uses. A store that is dead on some
paths is copied into the join block that needs it, and the original stores in
the predecessors are erased. The pass then removes stores that a later store
to the same variable overwrites within a block.

The model replaces LLVM's objects with plain datatypes (`Ir`):

- An instruction is `Alloca(id)`, `Store(id, ptr, val)`, `Load(id, ptr)` or `Other(id)`.
- `id` is the instruction's identity (its address in the host compiler).
- `ptr` is the `id` of the allocation a load or store accesses.
- A block is a `seq<Op>`.
- A function is its blocks in layout order plus the successor list of each block.
- Predecessors are derived from the successor lists.
- `isIdenticalTo` becomes equality up to `id`.
- A null instruction pointer becomes `None`.

The modules follow the pass's member functions:

| module | file | source function |
|---|---|---|
| `Ir` | ir.dfy | the IR: instructions, blocks, CFG, sequence helpers |
| `Allocas` | allocas.dfy | `getAllocas` |
| `Reach` | reach.dfy | `hasPathBetweenBlocks` |
| `Dataflow` | dataflow.dfy | `bbSinkingAnalysis`, `findGenKillInOut` |
| `Sinking` | sink.dfy | `findPartialDeadStores` |
| `Cleanup` | cleanup.dfy | `rmDup` |
| `Driver` | driver.dfy | the analysis loop of `run` |
| `Scenarios` | scenarios.dfy | small functions on which the whole behaviour is worked out |

How the model relates to the code:

- **Reachability.** `hasPathBetweenBlocks` searches depth first over the successor lists and keeps no visited set.
  - It fails to return exactly when that search runs into a cycle before it finds the end block. That needs a cycle reachable from the start block; a cycle elsewhere, or one the search only meets after it has found the end block, does no harm.
  - `Reach.PathExists` runs the same recursion but stops at a depth equal to the number of blocks. It is proved to answer exactly "some CFG path connects the two blocks".
  - On an acyclic CFG it is proved to agree with the unguarded recursion (`Reach.UnguardedPath`, whose termination a topological numbering shows).
- **The analysis stop flag.** It is modelled as written, and two scenarios show how the loop can stop early.
  - Every block overwrites `change`, so the `while (change)` loop stops after any sweep in which the *last* block's IN did not change. `Scenarios.StopsBeforeStable` gives a four-block function on which an IN changes in the first sweep, but the last block's does not. The loop stops, although one more sweep would still set another IN.
  - `change` compares IN only, so a sweep that changes only OUT stores also ends the loop. `Scenarios.OutChangeIgnored` gives a two-block function on which that happens.
  - `Dataflow.IterateCoherent` proves what does hold after any number of sweeps: a block whose IN is set has all its predecessors' OUT set and identical to it.
  - `Dataflow.AnalyzeTwoSweeps` shows that the loop never runs more than two sweeps. The first can only report a change by setting the last block's IN, and a set IN never changes again, so the second reports none.
- **A store lost on a side exit.** `findPartialDeadStores` erases the OUT store of every predecessor of a block whose IN is set. It never checks that predecessor's other successors. `Scenarios.LostOnSideExit` works this out on a four-block function, `Scenarios.SideExit`:
  - Block 1 stores the variable and branches to blocks 2 and 3. The entry also branches to block 3. Both blocks 2 and 3 load the variable.
  - Block 2's IN becomes block 1's store. Block 3's IN stays null, because the entry's OUT is null.
  - Sinking erases the store from block 1 and puts its copy in block 2 only. On the path through blocks 0, 1 and 3 the stored value is lost.
  - This is the code's behaviour as written, and the model reproduces it.
- **A null predecessor OUT.** `findPartialDeadStores` calls `dyn_cast` on every predecessor's OUT. If one were null, that call would fail. The same invariant proves this never happens on the analysis's results. The model (`Sinking.Collect`) skips a null OUT, which therefore changes nothing.
- **Bounded loops.** The analysis loop is bounded by a `fuel` number of sweeps; any fuel of two or more gives the loop's own result. The `while (true)` sinking loop of `run` is bounded by a `rounds` count.

## Model

| member | source | states |
|---|---|---|
| Allocas.GetAllocas | pdsepass/pdsepass.cpp:41-54 | The result is the function's `Alloca` instructions, in block order and then instruction order, and nothing else: an instruction is in it exactly when it is an `Alloca` of some block |
| Allocas.AllocasOfBlocks | pdsepass/pdsepass.cpp:43-53 | The outer loop appends to `allocas` the allocations of the remaining blocks, in order |
| Allocas.AllocasOfOps | pdsepass/pdsepass.cpp:45-52 | The inner loop pushes the allocations of one block, in order |
| Reach.ReachWithin | pdsepass/pdsepass.cpp:56-72 | The recursion of `hasPathBetweenBlocks`, cut off after `k` levels, only ever answers true for a block of the function; `Reach.ReachWithinIffPath` states exactly when it answers true |
| Reach.PathExists | pdsepass/pdsepass.cpp:56-72 | The terminating test only ever answers true for a block of the function; `Reach.PathExistsIffPath` states exactly when it answers true |
| Reach.PathExistsRefl | pdsepass/pdsepass.cpp:58-61 | Every block reaches itself, whether or not it has successors |
| Reach.PathExistsStep | pdsepass/pdsepass.cpp:63-69 | A block reaches every block that one of its successors reaches |
| Reach.ReachWithinIffPath | pdsepass/pdsepass.cpp:58-71 | The recursion cut off after `k` levels answers true exactly when a CFG path of at most `k` edges connects the blocks |
| Reach.PathExistsIffPath | pdsepass/pdsepass.cpp:56-72 | The terminating test answers true exactly when some CFG path, of any length, connects start to end |
| Reach.UnguardedPathIffPath | pdsepass/pdsepass.cpp:56-72 | On an acyclic CFG the unguarded recursion of `hasPathBetweenBlocks` answers true exactly when a path connects the blocks |
| Reach.PathExistsAgreesWithUnguarded | pdsepass/pdsepass.cpp:56-72 | On every acyclic CFG the terminating test and the recursion of `hasPathBetweenBlocks` give the same answer |
| Dataflow.Scan | pdsepass/pdsepass.cpp:79-91 | With no store or load of the variable, GEN/KILL keep their initial values. Otherwise the last such event decides them: a store gives (that store, false) and a load gives (null, true). A set GEN is the initial one or a store of the variable in the block. GEN set implies KILL clear is preserved |
| Dataflow.HazardFrom | pdsepass/pdsepass.cpp:99-107 | The loop from index `i` finds a hazard exactly when some adjacent successor pair from `i` on is connected by a path in either direction |
| Dataflow.LocalSummary | pdsepass/pdsepass.cpp:78-109 | IN and OUT start null. A hazard forces GEN null and KILL set. Otherwise GEN/KILL are the scan's result from (null, false). A set GEN is a store of the variable in the block, with KILL clear |
| Dataflow.Init | pdsepass/pdsepass.cpp:76-110 | Every block starts with null IN and OUT. A block with a hazard starts with GEN null and KILL set. Any other block starts with the GEN/KILL of its scan from (null, false) |
| Dataflow.HazardForcesKill | pdsepass/pdsepass.cpp:93-107 | If two adjacent successors of a block are connected either way, the analysis ends with GEN null and KILL set for that block, whatever its instructions |
| Dataflow.Merge | pdsepass/pdsepass.cpp:118-138 | With no predecessors IN is unchanged. A null predecessor OUT makes IN null. A set IN implies every predecessor OUT is set and identical to it. A set IN survives exactly when all OUTs are identical to it. A null IN becomes the first predecessor's OUT exactly when all OUTs are identical to that one |
| Dataflow.TransferOutSettles | pdsepass/pdsepass.cpp:140-147 | From a null OUT it is exactly the OUT that GEN, KILL and IN determine. Otherwise it is that OUT or the old one |
| Dataflow.StepUpdates | pdsepass/pdsepass.cpp:117-147 | One block update keeps GEN and KILL. A block without predecessors keeps its IN. A set IN is backed by set, identical OUTs on all predecessors. A null OUT becomes the one GEN, KILL and the new IN determine |
| Dataflow.PassFrom | pdsepass/pdsepass.cpp:115-150 | A sweep leaves GEN/KILL unchanged and blocks before `b` untouched. The returned flag is true exactly when the last block's IN changed |
| Dataflow.StepSound | pdsepass/pdsepass.cpp:117-147 | Updating a block keeps the invariant: GEN/KILL are the local results, every recorded store is a store of the variable in the function, a killed block without GEN has a null OUT, and a block without predecessors has a null IN. The block's OUT becomes GEN if set, else IN if not killed, else null |
| Dataflow.PassFromSound | pdsepass/pdsepass.cpp:115-150 | A sweep keeps the invariant and leaves every block it visits with the OUT that its GEN, KILL and IN determine |
| Dataflow.IterateKeepsGenKill | pdsepass/pdsepass.cpp:112-151 | The `while (change)` loop never changes any block's GEN or KILL |
| Dataflow.IterateSound | pdsepass/pdsepass.cpp:112-151 | Any number of sweeps keep the invariant, and after at least one sweep every OUT is the one GEN, KILL and IN determine |
| Dataflow.StepKeepsSetOut | pdsepass/pdsepass.cpp:140-147 | Once a block's OUT is set, later updates of that block leave it unchanged |
| Dataflow.StepCoherent | pdsepass/pdsepass.cpp:117-147 | Updating a block keeps coherence: every set IN is matched by a set, identical OUT on every predecessor |
| Dataflow.PassFromCoherent | pdsepass/pdsepass.cpp:115-150 | A sweep keeps coherence |
| Dataflow.IterateCoherent | pdsepass/pdsepass.cpp:112-151 | Coherence holds after any number of sweeps, including when the loop stops early |
| Dataflow.Analyze | pdsepass/pdsepass.cpp:74-152 | The analysis results have GEN/KILL equal to the local results. Every recorded store is a store of the variable in the function. GEN implies not KILL. After a sweep every OUT is settled. A set IN implies the block has predecessors whose OUTs are all set and identical to it |
| Dataflow.AnalyzeTwoSweeps | pdsepass/pdsepass.cpp:112-151 | The `while (change)` loop stops after at most two sweeps: analysing with any fuel of two or more gives the same summaries as two sweeps, because a set IN never changes and so the second sweep cannot change the last block's IN |
| Sinking.Clone | pdsepass/pdsepass.cpp:162 | The copy is identical to the original store and carries the new identity |
| Sinking.Inserted | pdsepass/pdsepass.cpp:160-163 | A block receives at most one copy, and one exactly when its IN is set. That copy is identical to IN and its identity is new to the function |
| Sinking.Collect | pdsepass/pdsepass.cpp:164-168 | The set grows by exactly the set OUT stores of the listed predecessors |
| Sinking.SinkFrom | pdsepass/pdsepass.cpp:157-170 | The block loop from `b` puts each visited block's copy at its front, leaves earlier blocks alone, and collects exactly the dead stores of blocks from `b` on |
| Sinking.EraseAll | pdsepass/pdsepass.cpp:177-180 | An instruction is in a block afterwards exactly when it was in that block before and is not in the set; no block grows |
| Sinking.EraseKeepsOthers | pdsepass/pdsepass.cpp:177-180 | When the set holds only stores to the variable, every other instruction of every block stays in place and in order |
| Sinking.Sink | pdsepass/pdsepass.cpp:154-182 | The CFG is unchanged. The result flag is true exactly when the set of dead stores is non-empty. Each block becomes its copy plus its instructions, minus the dead stores. When the flag is false nothing is erased |
| Sinking.NothingToSink | pdsepass/pdsepass.cpp:157-175 | With no IN set anywhere, sinking returns the function unchanged and false |
| Sinking.SinkSound | pdsepass/pdsepass.cpp:154-182 | On analysis results, every erased instruction is a store of the variable in the function. Each block becomes its copy followed by its own instructions minus the dead stores. Everything but stores of the variable stays in place and in order |
| Cleanup.ScanBack | pdsepass/pdsepass.cpp:192-208 | The backward scan adds nothing and keeps every instruction that is not a store to the variable. With no later store pending, the block's last instruction survives |
| Cleanup.ScanBackIsLive | pdsepass/pdsepass.cpp:186-208 | The backward scan with one flag erases exactly the stores whose next event on the variable, reading forward, is another store |
| Cleanup.RmDupBlock | pdsepass/pdsepass.cpp:186-213 | A block after `rmDup` equals the forward reference. Loads, other instructions and their order are untouched. Any two surviving stores to the variable have a load of it between them |
| Cleanup.LoadBetweenStores | pdsepass/pdsepass.cpp:195-207 | In a block where no store is overwritten before a load, any two stores have a load between them |
| Cleanup.LiveKeepsOthers | pdsepass/pdsepass.cpp:195-207 | Only stores to the variable are ever erased; everything else stays in order |
| Cleanup.RmDup | pdsepass/pdsepass.cpp:184-214 | The CFG is unchanged. Every block becomes the forward reference, which erases exactly the stores whose next event is a store. Every block keeps all but its stores to the variable, in order. Any two surviving stores to the variable in a block have a load of it between them |
| Cleanup.RmDupIdempotent | pdsepass/pdsepass.cpp:186-213 | Cleaning one block twice is the same as cleaning it once |
| Cleanup.RmDupTwice | pdsepass/pdsepass.cpp:184-214 | Applying `rmDup` to the whole function twice is the same as applying it once |
| Driver.SinkLoop | pdsepass/pdsepass.cpp:237-245 | Alternating analysis and sinking keeps the CFG, and in every block all but the stores to the variable |
| Driver.ProcessVar | pdsepass/pdsepass.cpp:235-247 | Sinking then `rmDup` for one variable changes nothing but stores to that variable |
| Driver.ProcessAll | pdsepass/pdsepass.cpp:231-247 | The loop over the allocation sites keeps the CFG and every block's non-store instructions in order |
| Driver.Run | pdsepass/pdsepass.cpp:225-247 | The pass keeps the CFG and every block's non-store instructions in order, and the function has the same allocation sites afterwards |
| Scenarios.StopsBeforeStable | pdsepass/pdsepass.cpp:112-151 | On a four-block function the first sweep changes block 2's IN but not the last block's, so the analysis stops with block 1's IN null, while one more sweep would set it |
| Scenarios.OutChangeIgnored | pdsepass/pdsepass.cpp:112-151 | On a two-block function the first sweep sets an OUT but no IN, so the analysis stops with block 0's IN null, while one more sweep would set it |
| Scenarios.OnlyAdjacentPairs | pdsepass/pdsepass.cpp:99-107 | Successors 1 and 3 of a block are connected, but they are not adjacent in its list, so the block keeps its GEN |
| Scenarios.LostOnSideExit | pdsepass/pdsepass.cpp:157-180 | On `SideExit`, block 1's store is erased and copied only into block 2, while block 3, another successor of block 1 that loads the variable, gets no copy: the pass as written loses the store on the path 0, 1, 3 |
| Scenarios.DiamondSinks | pdsepass/pdsepass.cpp:154-182 | On a diamond whose arms store the same value, both stores are erased and one copy is placed at the front of the join block |
| Scenarios.SplitValuesStay | pdsepass/pdsepass.cpp:133-137 | When the arms store different values, the join block's IN stays null and sinking changes nothing |
| Scenarios.RunOfStores | pdsepass/pdsepass.cpp:192-208 | Of three stores followed by a load, only the last store survives `rmDup` |

## Left out

- Pass registration and the plugin entry point (pdsepass/pdsepass.cpp:321-345) are host plumbing.
- `PDSEPerformancePass` (pdsepass/pdsepass.cpp:303-318) is an empty stub.
- The block frequency, branch probability and loop analyses (pdsepass/pdsepass.cpp:219-221) are requested but never used.
- The `PreservedAnalyses` return value (pdsepass/pdsepass.cpp:300) does not affect the transformation.
- All `errs()` output (pdsepass/pdsepass.cpp:49, 194, 233, 249-294) is debug I/O.
- LLVM's instruction objects are replaced by values with an `id`:
  - `clone` is a copy with a fresh `id`.
  - `insertBefore` is a sequence prefix.
  - `eraseFromParent` is removal by value.
  - Identities are assumed unique, as they are in the host compiler; `Ir.WellFormed` does not require it.
- Ir.Identical: compares opcode and operands only; LLVM's `isIdenticalTo` also compares types and flags, which the model has no counterpart for.
- Sinking.Inserted: puts the copy at index 0. The model has no PHI nodes, so the first insertion point is the block's start.
- Ir.Preds: lists predecessors once each, in ascending block order. LLVM lists them in use-list order, once per edge. Order can decide which of several identical stores IN names, because a null IN takes the first predecessor's OUT. It changes neither whether IN is set nor the copy, which is identical either way, nor the set of erased stores.
- Reach.PathExists: cuts the recursion at a depth equal to the number of blocks. `hasPathBetweenBlocks` does not return when its depth-first search runs into a cycle before it finds the end block. Agreement with the unguarded recursion is proved for acyclic CFGs, on which it always returns.
- Dataflow.Analyze: runs at most `fuel` sweeps of the `while (change)` loop. For a function with blocks and a fuel of two or more this drops nothing (`Dataflow.AnalyzeTwoSweeps`). A function without blocks would keep `change` true forever in the code; the model stops there when the fuel runs out, and the result is the empty analysis either way.
- Driver.SinkLoop: runs at most `rounds` rounds of the `while (true)` loop. When the bound is reached, the model returns the function as it stands.
- Sinking.Collect: skips a null predecessor OUT, which the source would pass to `dyn_cast`. `Dataflow.Analyze` proves that this cannot happen on the analysis's results.
