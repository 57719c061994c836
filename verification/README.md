# A verified model of the Vicare runtime

Vicare's C runtime keeps the heap, the numbers, the stack and the loaded code of a Scheme system. This project models
the parts of it whose correctness is not visible in any one function, and proves what they are for:

- **The generational copying collector** (`Memory`, `Gc*`, `Collector`, `Mutator`, `Runs`): memory is words on pages,
  with the segment vector, the dirty vector with a nibble for each card, the meta pages, the queues, forwarding words in
  the old objects, weak pairs and guardians. `Collector.Gc` has the fields of the process control block and of `gc_t`;
  its methods do what the functions of `src/ikarus-collect.c` do. One invariant, `GcState.Inv`, is kept by every step.
  The results are that the loop ends and scans no word twice, that the object graph seen from the roots is the same,
  that the survivors are exactly the least set that the roots, the older pages and the guardians require
  (`GcReachable.Reachable`, which without guardians is what paths of slots lead to), that guardian entries are
  conserved, and that over any run of the program and the collector the remembered set is sound and the next collection
  can begin.
- **Queues of guardians and hash tables** (`Tconc`, `GcDeliver`, `HashTconcs`): delivery is appending, and a collection
  moves the queues as a whole.
- **Exact integers** (`Bits`, `Limbs`, `LimbLoops`, `Mpn`, `Numbers`, `LogicOps`, `Arithmetic`, `Shifts`, `Flonums`):
  limb loops on sign and magnitude against integers, infinite two's complement bits, and the nearest double. The limb
  routines that the code takes from GMP are small verified loops here.
- **Continuations** (`Frames`, `ExecLog`, `Exec`): frozen stack segments, split in place, resumed frame by frame, and
  nested with C calls. Compiled code is any sequence of steps that leaves whole frames on the stack, given as a script.
  `ExecLog` says, step by step, what a run of the script has to be: which frame and which values are found at every
  entry into compiled code; the machine of `Exec` is proved against it.
- **Relocation and the FASL reader** (`Bytes`, `Relocation`, `Fasl`, `FaslMeaning`, `FaslBuilds`, `FaslStrings`): every
  field of relocated code holds what its record stands for, and the two relocators agree; the reader builds what the
  tree of headers means, compact lists mean nested pairs, and strings are widened in place.
- **Base64** (`Radix`, `Base64`): section 4 of RFC 4648, as numbers in base 64 and base 256.

Only the 64-bit platform is modelled: words of 8 bytes, pages of 512 words, 8 cards in a page, three bits of fixnum
tag, five generations.

## Where the code does not do what it is for

The model does what the code does; the contracts say exactly when that is right.

- `ikrt_bnbnplus` and `ikrt_bnbnminus` store the carry at the length of the first operand. `Arithmetic.Misplaced` is the
  exact condition under which the result is not the sum or difference.
- `ikrt_bnbnlogand` returns a bignum where the greatest fixnum is due: exactly when both operands are positive and their
  limbs share that number and nothing else (`LogicOps.ShareGreatestFixnum`).
- `ikrt_bignum_shift_right` returns 0 for the negative numbers of `Shifts.Lost`.
- `ikrt_bignum_to_flonum64` does not look at the further bits when the bignum has one limb (`Flonums.ToFlonum`). Only
  direct callers of the C function meet this: the one Scheme caller that asks for further bits
  (scheme/ikarus.numerics.generic-arithmetic.sls:4941) passes the root of a number too large for a double, which is at
  least 2^512.
- The Base64 decoder accepts four bytes that are not letters, looks in front of an empty input, and leaves bytes of
  the output unwritten when a group before the last is padded (`Base64.Decode`, `Base64.WrittenFits`).
- The load-time relocator truncates the distance of a jump without a test, and refuses an object at displacement 0,
  which the collector takes (`Relocation.LoadedJumpLands`, `Relocation.Loadable`).
- While dirty pages are scanned, the cleanup mask of a page of a large vector that has just been promoted is looked up
  with the generation field still tagged, beyond the end of the table. `Collector.Gc.stray` stands for what is read
  there; the results hold whatever it is.
- The car of a weak pair on an older page is scanned like any other word of its card, so it holds its object; the model
  does the same, and `GcTheorems.WeakPairKept` says so.

## Model

| member | source | states |
|---|---|---|
| `Collector.Gc.MetaAlloc` | src/ikarus-collect.c:2620-2641 | the words handed out are on pages of the right kind and generation, overlap nothing allocated before, and every part of the collector's invariant survives, whether they come from the current page or a new one |
| `Collector.Gc.MetaAllocExtending` | src/ikarus-collect.c:2642-2698 | the same when the page is full: its used part goes to the queue it will be scanned from, unless it holds raw data |
| `Collector.Gc.AllocWeakPair` | src/ikarus-collect.c:2540-2577 | the same for weak pairs, whose full pages are left behind without being queued |
| `Collector.Gc.AllocLargePtr` | src/ikarus-collect.c:2471-2501 | a large vector gets pages of its own, tagged large, and exactly its words are queued |
| `Collector.Gc.EnqueueLargePtr` | src/ikarus-collect.c:2502-2522 | the pages of a large vector are retagged one by one and its words queued: the new state is Promote of the old one |
| `Collector.Gc.Gather` | src/ikarus-collect.c:1434-1534 | for any word: the result is its image under the forwarding map, which only grows; the object is forwarded, promoted, or was in an older generation; no survivor changes, nothing outside any sufficient set is kept; recursion ends because unreached objects get fewer |
| `Collector.Gc.GatherVector` | src/ikarus-collect.c:1803-1865 | the three branches for vectors: from a page of memory on they are promoted where they are if their pages are large already, and otherwise moved to large pages of their own; smaller ones are moved to the pointers page |
| `Collector.Gc.GatherData` | src/ikarus-collect.c:2018-2058 | objects of raw data are moved as a whole |
| `Collector.Gc.GatherList` | src/ikarus-collect.c:2066-2160 | a list is moved along its cdrs, of any length and shape; the result is the image of its head |
| `Collector.Gc.MoveSpine` | src/ikarus-collect.c:2088-2125 | the loop of that function: after any number of pairs all cdrs but the last are right, cars are still to be scanned |
| `Collector.Gc.GatherCdr` | src/ikarus-collect.c:2101-2157 | the decision about a cdr: go on with the next pair, or the image to store |
| `Collector.Gc.ScanRange` | src/ikarus-collect.c:2751-2786 | every word of a stretch becomes the image of what it held, while stretches are added to the queues |
| `Collector.Gc.CollectTurn` | src/ikarus-collect.c:2727-2936 | a turn that reports it is done has found nothing to scan; otherwise fewer objects are unreached, or the agenda has become empty |
| `Collector.Gc.CollectLoop` | src/ikarus-collect.c:2705-2950 | the scan loop terminates, with nothing left to scan and the free tails of the pages cleared |
| `GcLoop.ScannedOnce` | src/ikarus-collect.c:2727-2936 | no word is scanned twice: the word that is being scanned was queued exactly once, over all the queues and pages; afterwards it is in none, and never will be, whatever the collector does next |
| `GcExact.NibbleOfWord` | src/ikarus-collect.c:3082-3100 | every bit that a scanned word adds to a nibble is that of the generation that its image refers to |
| `GcScan.ScanOnce` | src/ikarus-collect.c:2780-2784 | scanning a word takes it off the agenda and adds nothing to it |
| `Collector.Gc.ScanDirtyWord` | src/ikarus-collect.c:3082-3100 | a word of a dirty card gets its image, and the collected bits include the bit of the page of the image |
| `Collector.Gc.ScanDirtyPointersPage` | src/ikarus-collect.c:3066-3116 | after the page is scanned each card's nibble covers everything the card refers to, cards that were skipped included; and no more: a bit of a scanned card is that of a generation some word of the card refers to, and younger than the page |
| `Collector.Gc.ScanDirtyPages` | src/ikarus-collect.c:3009-3064 | the same for all the pages from before: skipping cards and pages outside the mask loses nothing, and scanned cards record nothing that is not there |
| `GcRoots.ScanRoots` | src/ikarus-collect.c:557-588 | every root becomes its image |
| `GcWeak.FixWeakPointers` | src/ikarus-collect.c:776-819 | every car on a page of new weak pairs becomes the copy, the broken weak pointer object, or stays |
| `GcGuardians.Sort` | src/ikarus-collect.c:1271-1299 | entries are split by whether their object is live, none lost and none doubled |
| `GcGuardians.Resurrect` | src/ikarus-collect.c:1302-1354 | the loop over entries of dead objects: each is forwarded once its tconc is live; it ends, and what is left has a dead tconc |
| `GcGuardians.Hold` | src/ikarus-collect.c:1355-1376 | entries of live objects with a live tconc go to the next generation, the others are dropped |
| `GcGuardians.HandleGuardians` | src/ikarus-collect.c:1264-1414 | conservation: each protected entry ends in exactly one place: kept (object live when the roots were traced, tconc live at the end), forwarded (object dead then, tconc live at the end) or dropped (tconc dead at the end); kept and forwarded cells are live themselves, and the lists hold exactly their images |
| `GcCollect.DeallocateUnusedPages` | src/ikarus-collect.c:820-843 | exactly the pages of pointers, raw data and weak pairs of the collected generations that hold no copies are freed, and their cards cleared |
| `GcCollect.FixNewPages` | src/ikarus-collect.c:845-862 | the tag of the new pages is taken off, and nothing else changes |
| `GcCollect.Collect` | src/ikarus-collect.c:446-617 | a whole collection: from a well-formed heap with sound cards to a well-formed heap with sound cards; when the roots are traced the survivors are exactly what the program can reach, at the end exactly that and what guardians hold; every protected entry is kept, forwarded or dropped by these two sets; the loop and all recursions end |
| `GcFinish.NextWellFormed` | src/ikarus-collect.c:820-862 | the heap that is left holds the survivors and nothing else, apart from each other, and every word is a value |
| `GcFinish.NextCardsSound` | src/ikarus-collect.c:2990-3116 | a card of a page of any generation that refers to a younger generation k has the bit for k, for old pages, promoted pages and new pages |
| `GcTheorems.GraphKept` | src/ikarus-collect.c:1434-2160 | the object graph seen from any root, along any path of slots, is the same before and after |
| `GcTheorems.PathsKept` | src/ikarus-collect.c:1434-2160 | the same from any word and its image |
| `GcTheorems.GraphSame` | src/ikarus-collect.c:1434-2160 | the same said without images: along any paths from any roots the same immediate values and the same kinds of objects, and two paths meet in one object after the collection just when they did before |
| `GcTheorems.ImagesDistinct` | src/ikarus-collect.c:1487-1520 | the forwarding map is one to one: two words are equal exactly when their images are |
| `GcTheorems.WeakPairKept` | src/ikarus-collect.c:776-819 | a weak pair that is kept: car copied, broken exactly when its object was collected and not reached, or unchanged; cdr strong; the car of a pair that stays on an older page is strong too |
| `GcReachable.ReachableEnough` | src/ikarus-collect.c:556-617 | there is a least set that holds what the roots and the older pages refer to, the cells of entries whose tconcs it holds, and all its own strong references |
| `GcReachable.SurvivorsReachable` | src/ikarus-collect.c:556-617 | the survivors of tracing are that set, no more and no less |
| `GcTheorems.ReachedByPaths` | src/ikarus-collect.c:556-617 | without entries it is the set of the collected objects at the ends of paths of slots from a root or an older page, never through the car of a weak pair |
| `Mutator.WriteKeepsSound` | src/internals.h:400-402 | storing a reference and marking its page dirty keeps the cards sound |
| `Mutator.ImmWriteKeepsSound` | src/internals.h:400-402 | storing an immediate value keeps them sound without marking |
| `Mutator.AllocateKeepsSound` | src/ikarus-runtime.c:799-833 | a new nursery object keeps them sound |
| `Mutator.MapKeepsSound` | src/ikarus-runtime.c:169-261 | mapping a page for the nursery, or giving one back, keeps them sound whatever the page holds |
| `Runs.FitReady` | src/ikarus-collect.c:446-617 | what holds between steps is all that a collection of any generation asks for |
| `Runs.CollectionFit` | src/ikarus-collect.c:446-617 | a collection leaves all of it as it was: roots and entries refer to objects, each list is on pages of its generation or older, and the cells are different pairs that nothing refers to |
| `Runs.RunsKeepReady` | src/ikarus-collect.c:446-617 | over any run of marked stores, unmarked immediate stores, allocations, mapped pages, changes of roots, guardian registrations, deliveries and collections: the heap is well formed, the remembered set is sound, and a collection of any generation can begin |
| `Tconc.DeliverOne` | src/ikarus-collect.c:871-887 | one entry of the forward list: the five stores put the item at the end of the queue of its tconc, and the heap and its cards stay sound |
| `Tconc.AppendQueue` | src/ikarus-collect.c:874-886 | the queue is well formed afterwards, holds what it held and then the item, and its new last cell is cleared |
| `Tconc.DeliverQueues` | src/ikarus-collect.c:874-886 | all other queues are unchanged |
| `Tconc.FinalizeGuardians` | src/ikarus-collect.c:864-891 | over the whole forward list each queue gets exactly its items, in order; all other entries are left alone |
| `GcDeliver.QueueMoved` | src/ikarus-collect.c:1434-2160 | a queue whose tconc survives a collection is a queue at the images of its cells, and holds the images of its items |
| `GcDeliver.ItemsForwarded` | src/ikarus-collect.c:864-891 | what is delivered to a tconc are the images of the objects of its forwarded entries, each once |
| `GcDeliver.CollectAndDeliver` | src/ikarus-collect.c:446-617 | a collection and its deliveries: every queue that survives holds the images of what it held and then the objects of its forwarded entries, and the next collection can begin |
| `HashTconcs.AddOneTconc` | src/ikarus-collect.c:1235-1254 | the stores and the three marks for one hash table bucket; no card hides a reference to a younger generation afterwards |
| `HashTconcs.AddedCarded` | src/ikarus-collect.c:1251-1253 | the three marks are enough for the six stores |
| `HashTconcs.AddQueues` | src/ikarus-collect.c:1235-1254 | the queue of the bucket's tconc gets the bucket at its end, the others stay as they are; the cell is cleared and the bucket begins with the length of a vector of three |
| `HashTconcs.AddTconcs` | src/ikarus-collect.c:1208-1233 | over all pages of cells each queue gets exactly its buckets, in order, and the cards stay sound |
| `Bits.AndBit` | src/ikarus-numerics.c:1056-1068 | the specification: bit i of And on infinite two's complement is the conjunction of the bits |
| `Bits.OrBit` | src/ikarus-numerics.c:1070-1082 | the same for Or |
| `Bits.NotBit` | src/ikarus-numerics.c:1104-1153 | the same for Not |
| `Bits.SameBits` | src/ikarus-numerics.c:1104-1413 | an integer is determined by its bits, so the three lemmas above fix the operations |
| `LimbLoops.BitsComplement2` | src/ikarus-numerics.c:1012-1028 | the complement with carry of a row continued by zeros, in place or not |
| `LimbLoops.BitsComplementCarry` | src/ikarus-numerics.c:1030-1043 | the complement with carry of a middle stretch, and the carry that comes out |
| `LimbLoops.BitsComplementWithCarry` | src/ikarus-numerics.c:1045-1054 | the complement of limbs from an offset on |
| `LimbLoops.BitsComplementLogand` | src/ikarus-numerics.c:1056-1068 | complement and conjunction in one pass; the second operand may be the destination |
| `LimbLoops.BitsComplementLogor` | src/ikarus-numerics.c:1070-1082 | complement and disjunction in one pass, with the carry |
| `LimbLoops.BitsCarry` | src/ikarus-numerics.c:1084-1092 | the carry comes through exactly when the limbs are all zero |
| `Limbs.ComplValue` | src/ikarus-numerics.c:1000-1054 | what the complement loops mean: the row and its carry are the two's complement negation of the magnitude |
| `Numbers.Normalize` | src/ikarus-numerics.c:836-857 | the result is canonical and has the value of the limbs |
| `Numbers.BigDoesNotFit` | src/ikarus-numerics.c:40-72 | the invariant of DEBUG_VERIFY_BIGNUM: a canonical number is a fixnum exactly when its value fits |
| `Numbers.CanonicalUnique` | src/ikarus-numerics.c:40-72 | canonical numbers of equal value are equal |
| `LogicOps.BnLognot` | src/ikarus-numerics.c:1104-1153 | Not of the value, canonical, for either sign |
| `LogicOps.FxBnLogand` | src/ikarus-numerics.c:1156-1201 | And of the values, canonical, for all signs |
| `LogicOps.BnBnLogand` | src/ikarus-numerics.c:1203-1283 | And of the values for all signs and lengths; canonical if and only if not: both positive, the lowest limbs share exactly the bits of the greatest fixnum, and no other limbs share a bit |
| `LogicOps.SharedValue` | src/ikarus-numerics.c:1250-1283 | that condition on the limbs holds exactly when the conjunction of the magnitudes is the greatest fixnum |
| `LogicOps.GreatestFixnumShared` | src/ikarus-numerics.c:1260 | two canonical numbers that meet it |
| `LogicOps.FxBnLogor` | src/ikarus-numerics.c:1286-1332 | Or of the values, canonical, for all signs |
| `LogicOps.BnBnLogor` | src/ikarus-numerics.c:1334-1413 | Or of the values, canonical, for all signs and lengths |
| `Mpn.Add` | src/ikarus-numerics.c:272-274 | the addition of limb rows that the code takes from GMP: sum with carry |
| `Mpn.Sub` | src/ikarus-numerics.c:325-327 | the subtraction: difference with borrow |
| `Mpn.Mul` | src/ikarus-numerics.c:893-905 | the product of two rows |
| `Arithmetic.FxFxPlus` | src/ikarus-numerics.c:104-124 | the exact sum, canonical |
| `Arithmetic.FxBnPlus` | src/ikarus-numerics.c:125-229 | the exact sum, canonical; the borrow abort is not reached |
| `Arithmetic.BnBnPlus` | src/ikarus-numerics.c:230-356 | the exact canonical sum if and only if not: equal signs, the first operand shorter, and a carry out of the second; what there is otherwise is said limb by limb |
| `Arithmetic.FxFxMinus` | src/ikarus-numerics.c:363-391 | the exact difference, canonical |
| `Arithmetic.FxBnMinus` | src/ikarus-numerics.c:393-511 | the exact difference, canonical |
| `Arithmetic.BnFxMinus` | src/ikarus-numerics.c:513-635 | the exact difference, canonical |
| `Arithmetic.BnBnMinus` | src/ikarus-numerics.c:636-758 | the exact canonical difference under the same condition, for different signs |
| `Arithmetic.MisplacedIsWrong` | src/ikarus-numerics.c:272-278 | where the carry is stored at the length of the first operand the result is wrong whatever the unset limb holds |
| `Arithmetic.MisplacedHappens` | src/ikarus-numerics.c:272-278 | two canonical numbers for which it is |
| `Arithmetic.BnNegate` | src/ikarus-numerics.c:760-787 | the exact negation, canonical |
| `Arithmetic.FxFxMult` | src/ikarus-numerics.c:790-833 | the exact product, canonical |
| `Arithmetic.FxBnMult` | src/ikarus-numerics.c:859-879 | the exact product, canonical |
| `Arithmetic.BnBnMult` | src/ikarus-numerics.c:881-911 | the exact product, canonical, for any lengths |
| `Arithmetic.BnBnComp` | src/ikarus-numerics.c:916-977 | the sign of the difference of the values |
| `Shifts.CopyBitsShiftingRight` | src/ikarus-numerics.c:1415-1425 | floor division of the row by a power of two, for any continuation of the row above, in place or not |
| `Shifts.CopyBitsShiftingLeft` | src/ikarus-numerics.c:1427-1437 | multiplication by a power of two, with the limb for what is carried |
| `Shifts.BignumShiftRight` | src/ikarus-numerics.c:1443-1528 | floor division by the power of two for both signs if and only if not Lost; 0 when Lost |
| `Shifts.LostHappens` | src/ikarus-numerics.c:1468-1476 | a canonical number that is Lost |
| `Shifts.ShiftMovesBits` | src/ikarus-numerics.c:1443-1528 | floor division moves every bit of the two's complement down |
| `Shifts.FixnumShiftLeft` | src/ikarus-numerics.c:1531-1552 | multiplication by the power of two, canonical |
| `Shifts.BignumShiftLeft` | src/ikarus-numerics.c:1555-1603 | multiplication by the power of two, canonical, for both signs |
| `Flonums.ToFlonum` | src/ikarus-numerics.c:1931-1981 | the bignum, and a little more if there are more bits, rounded to 53 bits, nearest, ties to even, if and only if it is not a single limb at a tie that only the further bits could break; there the further bits are ignored |
| `Flonums.TieHappens` | src/ikarus-numerics.c:1931-1939 | a canonical number of one limb at such a tie, where the two roundings differ |
| `Flonums.RoundIsNearest` | src/ikarus-numerics.c:1945-1967 | the reference: no double is nearer to any real number in that place, and of two equally near it is the one with the even significand |
| `Flonums.RoundIsDouble` | src/ikarus-numerics.c:1945-1967 | the rounded number is a double |
| `Flonums.Adjust` | src/ikarus-numerics.c:1945-1967 | setting the low bits of the top word makes its own rounding to 53 bits the rounding of the whole number |
| `Frames.SplitInvisible` | src/ikarus-exec.c:145-183 | for every continuation object, aliases included, the pending frames are the same before and after the split in place |
| `Frames.PendsUnique` | src/ikarus-exec.c:67-188 | what a continuation has pending is determined |
| `Frames.BelowKeeps` | src/ikarus-exec.c:227-295 | writes below the frame base, and new objects, change nothing that is pending |
| `Exec.Machine.Seal` | src/ikarus-ffi.c:656-741 | the frames of the segment, and then all that was pending, are pending afterwards; no frozen frame is written |
| `Exec.Machine.EnterC` | src/ikarus-ffi.c:590-624 | a system continuation with the C stack and what is to be resumed is on top |
| `Exec.Machine.LeaveC` | src/ikarus-ffi.c:625-655 | aborts exactly if the top is not a system continuation, and otherwise restores what it holds |
| `Exec.Machine.TakeFrame` | src/ikarus-exec.c:100-188 | exactly the head frame is taken, the tail is what is pending; neither abort is reached |
| `Exec.Machine.PutFrame` | src/ikarus-exec.c:227-286 | the return values keep their order and contents under the frame, even when the ranges overlap; nothing at or above the frame base is written |
| `Exec.Machine.Resume` | src/ikarus-exec.c:67-295 | a turn resumes exactly the head frame, with the values under it; there is no room exactly when frame and values do not fit under the frame base |
| `Exec.Machine.ExecCode` | src/ikarus-exec.c:25-321 | any run, with all nested calls and callbacks, is one that RunFits describes: each turn's steps in order, each entry with the head frame and the values of the turn before; every continuation object keeps its frames; when it is done exactly what was pending under it is pending, so it stops at the first system continuation without popping it, and the result is the first value of the last turn; it is not done only when the stack is full or the script over |
| `ExecLog.ValuesArrive` | src/ikarus-exec.c:255-293 | in every such run the values of a turn are right under the frame that is resumed next, the first one highest |
| `ExecLog.FrameArrives` | src/ikarus-exec.c:268-293 | and that frame is the first of what was pending after the turn, with the rest pending still |
| `ExecLog.ArgumentsArrive` | src/ikarus-ffi.c:506-556 | the arguments of a callback are on the stack at its first entry into compiled code |
| `ExecLog.ResultsStay` | src/ikarus-exec.c:299-320 | when a run is done the values of its last turn are on the stack, from where the result is taken |
| `Exec.Machine.Call` | src/ikarus-ffi.c:590-655 | bracketing: over any well-nested callbacks, which are run in order, each with its arguments, the abort in leaving is not reached, and the C stack and the continuation are what entering saw after sealing |
| `Exec.Machine.RunCallback` | src/ikarus-ffi.c:496-567 | the stack part of a callback: the arguments where compiled code finds them, a run, and its first returned value |
| `Exec.Machine.RunAct` | src/ikarus-exec.c:56-66 | every step of compiled code does what StepFits says, and keeps every frozen frame and what is pending under the run |
| `Relocation.RelocateLoaded` | src/ikarus-fasl.c:916-1018 | the walk ends exactly at the end of the vector if and only if no record is zero and all foreign names are found; then every field holds the object, the foreign address, the address in the object or the distance to it, and no other byte is changed |
| `Relocation.RelocateMoved` | src/ikarus-collect.c:2265-2371 | the same for the collector with the objects where they are now, if and only if all jumps are in range; foreign fields keep their bytes |
| `Relocation.RelocatorsAgree` | src/ikarus-collect.c:2265-2371 | code loaded at one place and relocated by the collector at another is the code as it would be loaded there, byte by byte |
| `Relocation.LoadedJumpLands` | src/ikarus-fasl.c:975-986 | after loading a jump lands on its target if and only if the distance fits in 32 bits |
| `Relocation.FarJumpMisses` | src/ikarus-fasl.c:975-986 | a jump whose distance does not fit, and where it goes is not its target |
| `Relocation.MovedJumpLands` | src/ikarus-collect.c:2332-2358 | after a collection every jump lands on its target where it is now |
| `Relocation.ReachableLands` | src/ikarus-collect.c:2332-2358 | the collector aborts just when some jump would miss its target |
| `Relocation.RecordsRead` | scheme/ikarus.compiler.intel-assembler.sls:856-1011 | the walks see exactly the records that the assembler wrote, for any tags, displacements and offsets that fit |
| `Relocation.ScannedAlready` | src/ikarus-collect.c:2308-2331 | it does not matter which slots of the vector the scan has reached first |
| `Fasl.Port.DoRead` | src/ikarus-fasl.c:196-234 | the reader is Read: the objects, their order of allocation, the marks and the refusals; what Read means is said by the next four rows |
| `FaslMeaning.ReadInOrder` | src/ikarus-fasl.c:211-234 | a stream is read if and only if every reference comes after the object with its mark, and no mark is used again after an object has got it |
| `FaslBuilds.ReadMeans` | src/ikarus-fasl.c:196-693 | along every path of slots the heap holds what the tree of headers has there: the immediate value, an object, or nothing; references lead to the one object with the mark; and two paths meet in one object just when one object is written at the ends of both |
| `FaslBuilds.FollowIs` | src/ikarus-fasl.c:317-431 | the same for any value that stands for a place of the tree: car, cdr and items are in their own slots, as many as are written |
| `FaslBuilds.ReadStream` | src/ikarus-fasl.c:177-193 | a whole stream with a table of marks of its own: both of the above |
| `Fasl.CompactMeansPlain` | src/ikarus-fasl.c:612-691 | compact lists and nested pairs are refused together, or read to structures that correspond object by object, one to one, slot by slot |
| `Fasl.SamePaths` | src/ikarus-fasl.c:612-691 | so along any paths they hold the same, with the same sharing and the same cycles |
| `FaslStrings.WidenAscii` | src/ikarus-fasl.c:359-384 | widening in place from the end: every character is the one of its octet |
| `FaslStrings.ReadAscii` | src/ikarus-fasl.c:340-391 | from the octets in the port to the characters of the string, tag included; nothing behind them is touched |
| `Base64.Encode` | src/ikarus-objects.c:354-449 | false for an input that is too long, and otherwise a text that stands for the input: its letters, as digits in base 64, are the number that the bytes are in base 256, shifted by the padding |
| `Base64.EncodedStandsFor` | src/ikarus-objects.c:359-431 | the encoding group by group is the encoding of the standard: ranks of the alphabet, number of letters, padding, value |
| `Base64.Decode` | src/ikarus-objects.c:450-613 | on any input: false exactly for a bad length or a character that is neither in the alphabet nor stray; otherwise the length computed from the padding, beginning with the bytes that the groups hold |
| `Base64.WrittenHolds` | src/ikarus-objects.c:495-606 | what is written for each group is the number that its characters are in base 64, without the bits that fill up the last one |
| `Base64.HoldsNumber` | src/ikarus-objects.c:495-606 | where only the last group is padded all the bytes are one number, the one that the whole text stands for |
| `Base64.RoundTrip` | src/ikarus-objects.c:354-613 | decoding what was encoded gives it back and fills the output |
| `Base64.WrittenFits` | src/ikarus-objects.c:483-606 | on any input at most the computed length is written, and exactly that if and only if only the last group is padded |
| `Base64.PaddingBefore` | src/ikarus-objects.c:483-606 | an input that is padded before its last group: four bytes are written into six |
| `Base64.RecodedIsStrict` | src/ikarus-objects.c:354-613 | encoding what was decoded gives the text back if and only if it is one the encoder writes |
| `Base64.DigitLetter` | src/ikarus-objects.c:456-471 | exactly the alphabet and the bytes 9, 19, 29 and 39 are accepted, and only the former are their own letters |

## Left out

- Symbols, closures, code objects, records, ports, structs and numbers with parts as kinds of objects in the collector:
  each is one more copy into pages that the model has. Relocation of code is modelled on its own.
- The stack as a root: the frames of compiled code, with their live masks, are given as roots.
- Scanning dirty code pages: the raw bits of the segment vector are shifted there without taking the nibble out, so
  what the cards of code pages mean cannot be stated.
- Choosing the generation to collect, integrity checks, statistics, hooks, and giving memory back to the system.
- Meeting hash table buckets during the collection: `HashTconcs` begins with the cells that have been filled, and does
  not place the buckets among the objects of the heap, as their first word is a reference and not a length.
- GcGuardians.HandleGuardians: the pairs that hold the entries are taken to be the collector's own, so no other object
  refers to them; `Runs` shows that this lasts, when it holds for every pair that is registered and the program does
  not store into the cells of entries.
- GcDeliver.CollectAndDeliver: tconcs and their cells are taken to be ordinary pairs, not weak ones.
- Collector.Gc.GatherData: the words of raw data are words that are not references; bytes are not modelled.
- Arithmetic.BnBnMinus: that the operands are one object is a parameter, as values have no identity.
- Flonums.ToFlonum: doubles are the integers they denote, so overflow to infinity is not modelled; the cast of a word to
  a double is taken to round to nearest, ties to even.
- Bignum division, modulo, square root, random numbers and decimal digits: the work is inside GMP.
- 32-bit platforms, and the width of `int` loop counters over limbs.
- Exec.Machine.ExecCode: a run is as long as its script and ends when the stack is full, for which the code has no test
  either; compiled code that goes back to a continuation of another run of C code is not a step of the model, as the
  C stack it would return to is gone. Stack overflow handling in the runtime, which starts a new stack, is left out.
- Exec.Machine.RunCallback: the conversion of arguments and return values between C and Scheme, and libffi.
- Relocation.RelocateLoaded: `dlsym` is a map from names to addresses; that a name is a bytevector is part of being
  found. Truncated vectors, which the code would read beyond, are excluded. What the fields hold is said for records
  whose fields do not overlap.
- Fasl.Port.DoRead: the stream is the tree of its headers, so the bytes of counts and of end of file are not modelled,
  and of the objects those of pairs, lists, vectors, marks and immediate values; a mark has no greatest index.
- Base64.Encode: shifts are made on bytes; what C keeps above them is masked off in the same expression.
- The FASL writer, the other POSIX, C library and printing files, and the assembly entry points.
