# A verified model of the workbench's algorithmic cores

This Dafny project models nine algorithmic cores of a small operating-system
workbench (a kernel with its shell, the runtime library and the programs around
it) and proves what each of them is for. Every core is kept in the shape of its
source: objects that are updated in place are classes or arrays changed by
methods, and those methods are proved against specifications on plain values
(sequences, maps, sets), about which the properties are then stated as lemmas.

| files | what they model |
|---|---|
| `Skyline.dfy`, `RectPack.dfy`, `PackRun.dfy` | the skyline rectangle packer: the geometry, the linked nodes that hold it, and whole runs |
| `KvStrings.dfy`, `KvSpec.dfy`, `KvStore.dfy` | the key-value store in a file of blocks: strings in blocks, what a run of puts means, the store |
| `Sched.dfy`, `SchedRuns.dfy`, `SchedRaces.dfy`, `Kmt.dfy`, `Sem.dfy` | the scheduler and task reclaim of N CPUs as a state machine, what holds in its runs, runs with races, the code of its steps, semaphores |
| `Tiling.dfy`, `FreeLists.dfy`, `Alloc.dfy`, `Pmm.dfy` | the kernel heap: blocks in a row, circular free lists, the heap as a whole, the allocator |
| `MergeSort.dfy`, `CoreList.dfy` | the in-place iterative merge sort of a linked list |
| `Words.dfy`, `UDivMod.dfy`, `SDivMod.dfy` | 64-bit division from 32-bit halves, unsigned and signed |
| `Fix16.dfy`, `Fix16Div.dfy`, `Fix16Sqrt.dfy`, `Fix16Str.dfy` | fixed-point multiplication, division, square root, printing and reading |
| `Pipe.dfy` | the pipe's ring buffer between one writer and one reader |
| `Paths.dfy`, `Dir.dfy` | paths and the in-buffer path normaliser |
| `Tokens.dfy`, `Grammar.dfy`, `ShellParse.dfy` | the shell's scanner, grammar, recursive-descent parser and end marks |
| `Arith.dfy` | facts about multiplication and division used by several of them |

Machine words are numbers with their wrap-around written out. `dafny verify
dfyconfig.toml` checks the whole project.

## Where the code departs from what it is meant to do

Each of these is kept in the model as it is in the code, with a lemma that shows
the input and, where it matters, the exact condition under which the code is right.

- The packer counts columns left of a box that starts inside a node of height 0, so it
  reports too much waste (`Skyline.WasteIsOverstated`): never too little, and by exactly
  what `Skyline.Overstated` says (`Skyline.WasteIsArea`).
- In the mode that is meant never to run out of nodes, it can: the search rounds
  widths up, the stitching does not (`RectPack.QuantumCanRunOut`). Over all runs it has
  a node for every box that fits exactly if it has one per column, or the bin has a
  single row that fills up before the nodes do (`PackRun.EnoughNodesIff`); for widths
  that are multiples of the quantum it always has (`PackRun.QuantumSuffices`).
- A stored key whose length is a multiple of 28 is found for every longer key that
  starts with it. The store is a dictionary exactly on the sets of keys in which
  that does not happen (`KvSpec.DictionaryIffPrefixSafe`).
- `alloc_str` gives an empty string no block of its own: its offset is the head of the
  recycling list, which stays there, or a place where nothing is written
  (`KvStore.KvFile.AllocStr`). With a recycled block on the list, a new pair with an empty
  value has its key for a value (`KvStore.EmptyValueReadsAsKey`). Puts require non-empty
  strings.
- `kmt_context_switch` looks at a task's attributes, tries its lock, and then reads the slot
  again to set the current task, with nothing in between to keep the task from going to
  sleep or ending. What it makes current is the task it has locked exactly if that task has
  not left the table since the look, and that task is ready exactly if it has been woken
  after each sleep since (`SchedRuns.SetTakesIff`). Otherwise it takes a sleeping task
  (`SchedRaces.SleeperIsTaken`), or reads the slot too late: the lock of a dead task stays
  held by a CPU that does not use it (`SchedRaces.DeadTaskStaysLocked`), or, when the slot
  has been given to another task, that one is on two CPUs (`SchedRaces.TaskOnTwoCpus`) and
  can be freed while it is current (`SchedRaces.FreedWhileCurrent`). Locks and slots fit in
  a run exactly as long as no slot is read too late (`SchedRuns.LocksFitIff`); the results
  about locks, frees and the reclaim are for those runs.
- `pipe_read` looks at the size and then at `open`: a writer that writes and closes in
  between makes it return 0 with bytes in the ring (`Pipe.Ring.ReadMissesByte`).
  `Pipe.Ring.Read` says that what it returns are the bytes seen when the size was looked at.
- `fix16_mul` drops a carry of its mixed sum (`Fix16.MixedSumCanWrap`); the operands for
  which it is right all the same are those of `Fix16.MulExact` (`Fix16.MulRightIff`).
  `fix16_div` is right for exactly the operands of `Fix16Div.DivExact`, all divisors
  below 2^20 among them, and off by one for the others (`Fix16Div.SeenIsNear`,
  `Fix16Div.ExcessShows`). `fix16_sqrt` subtracts 0x4000 too much on a branch that is
  reached only from 2^30 on; it is right for exactly the numbers of `Fix16Sqrt.SqrtExact`
  (`Fix16Sqrt.RightIff`, `Fix16Sqrt.SlipShows`). `fix16_from_str` turns
  "-32768.5" into a positive number (`Fix16Str.TooNegative`,
  `Fix16Str.AnswerRightIff`).
- The comment in `core_list_mergesort` allows for an empty list, but the write of the
  last link does not; the model requires a node.

## Model

| member | source | states |
|---|---|---|
| Skyline.RestsOnSkyline | abstract-machine/libs/imgui/include/stb_rect_pack.h:276-325 | the height found for a box is the highest segment under it: it is below none of them and touches one, or the floor |
| Skyline.WasteIsArea | abstract-machine/libs/imgui/include/stb_rect_pack.h:297-324 | the waste reported is the area lost under the box plus the columns counted too many, for the height they are counted at; so it is never too small, and right exactly when those add nothing, as for a box that starts on a node or inside one of positive height |
| Skyline.WasteIsOverstated | abstract-machine/libs/imgui/include/stb_rect_pack.h:312-318 | a skyline and a box for which the waste reported is more than the area lost |
| Skyline.BestOfDecides | abstract-machine/libs/imgui/include/stb_rect_pack.h:333-426 | the best candidate fits the bin exactly when any candidate position does, and then no fitting candidate is better |
| Skyline.BestIsLeast | abstract-machine/libs/imgui/include/stb_rect_pack.h:344-420 | better means: lower, at equal heights (best fit) wasting less, and then further left |
| Skyline.FitsClears | abstract-machine/libs/imgui/include/stb_rect_pack.h:346-419 | a candidate that fits lies inside the bin, rests on the skyline and stays clear of it |
| Skyline.LayIsSkyline | abstract-machine/libs/imgui/include/stb_rect_pack.h:443-486 | after a placement the nodes still have strictly increasing x from 0 to the sentinel at the bin width |
| Skyline.LayHeights | abstract-machine/libs/imgui/include/stb_rect_pack.h:443-478 | exactly the columns under the placed box, up to the next node, get its top; all others keep their height |
| Skyline.LayNeverLowers | abstract-machine/libs/imgui/include/stb_rect_pack.h:443-478 | no column's height decreases |
| Skyline.LayKeepsAbove | abstract-machine/libs/imgui/include/stb_rect_pack.h:443-478 | the skyline stays at or above the top of each rectangle below it |
| Skyline.RestingIsDisjoint | abstract-machine/libs/imgui/include/stb_rect_pack.h:276-325 | a box resting on the skyline overlaps no rectangle the skyline is above |
| Skyline.LayKeepsPacking | abstract-machine/libs/imgui/include/stb_rect_pack.h:428-508 | one placement keeps all placed rectangles inside the bin, pairwise disjoint and below the skyline |
| Skyline.PlacementKeeps | abstract-machine/libs/imgui/include/stb_rect_pack.h:428-508 | the same for a box whose width was rounded up for the search, with coordinates staying in 16 bits |
| Skyline.NodesFitQuanta | abstract-machine/libs/imgui/include/stb_rect_pack.h:233-240 | on multiples of the quantum, the n-th node is at least n quanta from the left |
| Skyline.PlacementKeepsQuantized | abstract-machine/libs/imgui/include/stb_rect_pack.h:339-342 | a placement whose widths are multiples of the quantum keeps all nodes on multiples of it |
| RectPack.Context.constructor | abstract-machine/libs/imgui/include/stb_rect_pack.h:244-274 | a new packer: one floor node and the sentinel active, all others free, nothing placed |
| RectPack.Context.SetupAllowOutOfMem | abstract-machine/libs/imgui/include/stb_rect_pack.h:224-242 | the quantum is 1, or the least with num_nodes quanta covering the width |
| RectPack.Context.FindMinY | abstract-machine/libs/imgui/include/stb_rect_pack.h:276-325 | the walk over the linked nodes computes height and waste as specified on the skyline |
| RectPack.Context.ScanLeft | abstract-machine/libs/imgui/include/stb_rect_pack.h:344-370 | the first loop finds the best of the left-aligned positions |
| RectPack.Context.ScanRight | abstract-machine/libs/imgui/include/stb_rect_pack.h:389-420 | the second loop finds the best of all positions, right-aligned ones included |
| RectPack.Context.FindBestPos | abstract-machine/libs/imgui/include/stb_rect_pack.h:333-426 | the search fails exactly when no position of its heuristic fits, and otherwise returns a best one, clear of everything |
| RectPack.Context.Swallow | abstract-machine/libs/imgui/include/stb_rect_pack.h:464-472 | the loop moves exactly the nodes the box covers to the free list |
| RectPack.Context.StitchIn | abstract-machine/libs/imgui/include/stb_rect_pack.h:443-478 | the relinked nodes are the two lists that show the raised skyline, no node lost or shared |
| RectPack.StitchedLists | abstract-machine/libs/imgui/include/stb_rect_pack.h:443-504 | active and free nodes stay disjoint and keep their total number |
| RectPack.Restitched | abstract-machine/libs/imgui/include/stb_rect_pack.h:443-478 | the pointers after the stitching lead through the new active and free lists |
| RectPack.Context.PackRectangle | abstract-machine/libs/imgui/include/stb_rect_pack.h:428-508 | a rectangle is placed exactly when a node is free and a position fits, at a best position, keeping the packing and the lists valid; else nothing changes |
| RectPack.SortedBackIsOriginal | abstract-machine/libs/imgui/include/stb_rect_pack.h:549-575 | sorting by the recorded indices brings every rectangle back to its place |
| RectPack.SortsByHeightIff | abstract-machine/libs/imgui/include/stb_rect_pack.h:510-519 | the comparison allows exactly the orders in which heights do not rise, nor widths among equal heights |
| RectPack.Answer | abstract-machine/libs/imgui/include/stb_rect_pack.h:545-580 | the answers of a call, in the caller's order, flagged exactly when placed, and pairwise disjoint in the bin with everything placed before |
| RectPack.Context.PackInOrder | abstract-machine/libs/imgui/include/stb_rect_pack.h:560-572 | every rectangle is tried once, on the skyline that the one before left; it gets a place exactly if a node is free and a position fits then, the origin if it is empty, or the failure mark |
| RectPack.Context.PackRects | abstract-machine/libs/imgui/include/stb_rect_pack.h:545-580 | the rectangles come back in their order, was_packed set exactly for the ones for which a node was free and a position fitted when they were tried; no rectangle is tried before a taller one, or one as tall and wider; all packed ones lie inside the bin and no two overlap; widths that are multiples of the quantum leave all nodes on multiples of it |
| RectPack.Context.NodePerColumnSuffices | abstract-machine/libs/imgui/include/stb_rect_pack.h:224-242 | with a node per column a free node is always left |
| RectPack.Context.NodePerQuantumSuffices | abstract-machine/libs/imgui/include/stb_rect_pack.h:233-240 | with a node per quantum too, while all nodes stand on multiples of it |
| RectPack.QuantumCanRunOut | abstract-machine/libs/imgui/include/stb_rect_pack.h:233-240 | a bin and boxes for which the mode meant never to run out of nodes does |
| PackRun.PackBoxes | abstract-machine/libs/imgui/include/stb_rect_pack.h:428-508 | the packer's own calls from a new target make one of the runs of the next rows, and its free list is empty exactly when the skyline has num_nodes + 2 nodes |
| PackRun.RunIsSkyline | abstract-machine/libs/imgui/include/stb_rect_pack.h:428-508 | in every run the nodes have strictly increasing x from 0 to the bin width |
| PackRun.QuantumSuffices | abstract-machine/libs/imgui/include/stb_rect_pack.h:233-240 | in every run of boxes whose widths are multiples of the quantum (best fit: the bin width too) a node is left |
| PackRun.StairsAreARun | abstract-machine/libs/imgui/include/stb_rect_pack.h:428-508 | with fewer nodes than columns, as many boxes of size 1 x 1 as there are nodes take them all |
| PackRun.EnoughNodesIff | abstract-machine/libs/imgui/include/stb_rect_pack.h:233-240 | no run leaves the packer without a node while a box fits, exactly if there is a node per column, or the bin has one row and its width is less than num_nodes plus the quantum, or no row |
| KvStrings.BlocksCmpIsMatch | libkvdb/kvdb.c:151-159 | the block-wise comparison accepts a stored key exactly if it equals the key asked for, or has full blocks only and is a prefix of it |
| KvStrings.CStrOfLastChunk | libkvdb/kvdb.c:160-167 | the last block, with the zero link behind it, reads as the end of the string |
| KvStrings.StrNCpy | libkvdb/kvdb.c:160-165 | copying a full block changes exactly its place in the destination |
| KvStrings.StrCpy | libkvdb/kvdb.c:166-166 | copying the last block puts its text and an end mark |
| KvSpec.PutThenGet | libkvdb/kvdb.c:356-429 | after a put, that key has the new value and every other key of a prefix-safe set what it had |
| KvSpec.RunsAsDictionary | libkvdb/kvdb.c:356-429 | after any run of puts, a get answers with the last put of its key, or nothing |
| KvSpec.FailsOnPrefix | libkvdb/kvdb.c:151-159 | one put and one get that go wrong whenever two keys are not prefix-safe |
| KvSpec.DictionaryIffPrefixSafe | libkvdb/kvdb.c:356-429 | for non-empty C strings as keys and values: exactly the prefix-safe sets of keys make a dictionary of the store |
| KvSpec.OddLengthsAreSafe | libkvdb/kvdb.c:151-159 | keys whose length is no multiple of 28 are prefix-safe |
| KvStore.KvFile.constructor | libkvdb/kvdb.c:135-148 | a fresh file is a valid store with no record and one reserved block |
| KvStore.KvFile.StoreBlocks | libkvdb/kvdb.c:211-244 | the loop stores the string in a chain of distinct blocks, first recycled ones, then new ones, leaving the reserved tail block |
| KvStore.KvFile.AllocStr | libkvdb/kvdb.c:200-250 | the string is in a chain of blocks that were free or new, all other chains are as they were, and the recycling list is what is left of it; an empty string gets no block: its offset is the head of the recycling list, which keeps it, or the old end of the file |
| KvStore.KvFile.FirstBlock | libkvdb/kvdb.c:201-210 | a string starts at the head of the recycling list if more than the reserved block is there, else at the end of the file |
| KvStore.AllocDone | libkvdb/kvdb.c:235-249 | when the last block is written, head, tail and reserved block of the recycling list are right |
| KvStore.KvFile.AddFreeList | libkvdb/kvdb.c:181-191 | the whole chain is behind the recycling list, in order, and belongs to it |
| KvStore.AppendChain | libkvdb/kvdb.c:181-191 | linking a chain behind the tail makes one list of distinct blocks |
| KvStore.KvFile.StringCmp | libkvdb/kvdb.c:151-159 | following the chain compares as specified on whole strings |
| KvStore.KvFile.StringCpy | libkvdb/kvdb.c:160-167 | the destination holds the whole string and its end mark |
| KvStore.KvFile.Search | libkvdb/kvdb.c:356-373 | the walk stops at the first record that the key matches, or at the empty one |
| KvStore.RecordReplaced | libkvdb/kvdb.c:364-372 | giving a record a new value keeps every other record and chain |
| KvStore.RecordAppended | libkvdb/kvdb.c:374-382 | filling the empty record and adding a new one extends the chain of records by exactly that pair |
| KvStore.NoneLostReplacing | libkvdb/kvdb.c:364-372 | when a value is replaced, its old blocks are on the recycling list, its new ones in the record, and every other block where it was |
| KvStore.NoneLostAdding | libkvdb/kvdb.c:374-382 | when a record is added, the blocks taken from the recycling list are those of its key and value |
| KvStore.KvFile.Put | libkvdb/kvdb.c:356-383 | the pairs of the store change as one put does, with all chains, records and the recycling list still in order, and no block lost: each stays on the chain of one key, one value or the recycling list |
| KvStore.KvFile.Get | libkvdb/kvdb.c:410-429 | the value of the first matching record as a fresh C string, or NULL |
| KvStore.KvFile.ChainsApart | libkvdb/kvdb.c:100-109 | no chain runs through a block twice, key chains, value chains and the recycling list share no block, and no two blocks or records share a byte or reach beyond the recorded size |
| KvStore.LayoutBlock | libkvdb/kvdb.c:127-133 | a block written over itself or at the end overlaps nothing else in the file |
| KvStore.RunThenGet | libkvdb/kvdb.c:356-429 | from the empty file, after any puts of prefix-safe keys, a get returns the last value put under its key, or NULL |
| KvStore.EmptyValueReadsAsKey | libkvdb/kvdb.c:200-250 | two puts, and one with an empty value whose record then reads its key for a value |
| Sched.KeepInv | kernel/src/kmt.c:59-131 | every step of every CPU keeps the protocol's invariant, unless it reads a slot that no longer holds the task locked; releasing the last task and noting the new last one are two steps, looking at a task, trying its lock and reading its slot again are three |
| SchedRuns.RunInv | kernel/src/kmt.c:59-131 | it holds in every reachable state, for any number of CPUs and tasks, up to the first slot read too late |
| SchedRuns.SlotsAreLocks | kernel/src/kmt.c:59-104 | up to there a CPU holds the running lock of a task exactly if the task is its current or last one, or the one it has just locked; no task is with two CPUs, and the two slots differ except while a task is chosen |
| SchedRuns.StaleBreaks | kernel/src/kmt.c:91-93 | a slot read too late leaves the lock of a task with a CPU that does not use the task |
| SchedRuns.LocksFitIff | kernel/src/kmt.c:59-104 | in every run: locks and slots fit in all states up to one exactly if no slot was read too late before it |
| SchedRuns.RingsServe | kernel/src/kmt.c:264-281 | as long as also no sleeping task is taken, the semaphores' rings hold exactly the sleeping tasks, each once, and a task that goes to sleep is in none |
| SchedRuns.NoTaskIsMissing | kernel/src/kmt.c:59-131 | whatever step a CPU is at, the tasks that it reads or writes exist, though the code itself does not look: those in its slots, in the table, at the head of the queue, in the cleaner's hand, and the sons; for a wake-up, as long as no sleeping task was taken |
| SchedRuns.ReadyIff | kernel/src/kmt.c:264-281 | a task that was ready is live later exactly if since then it has not ended, and then ready exactly if it has been woken after each sleep |
| SchedRuns.SlotIff | kernel/src/kmt.c:321-330 | a slot holds a task exactly as long as the task has not left the table |
| SchedRuns.SeenWasLookedAt | kernel/src/kmt.c:90-91 | a CPU that is to try a task's lock has looked at the task in that slot, ready then, and has not tried a lock since |
| SchedRuns.LockedWasChosen | kernel/src/kmt.c:90-93 | a CPU that is to read a slot again got the lock of the task that it had looked at there |
| SchedRuns.SetTakesIff | kernel/src/kmt.c:90-93 | the current task is the one locked exactly if the slot still holds it, and exactly if it has not left the table since the look (or its memory is a new task, got the same slot, and has not left it); it is then live, and ready exactly if it has been woken after each sleep since |
| SchedRuns.OneFreer | kernel/src/kmt.c:121-131 | a CPU that has come to free a task, in the cleaner or in a parent's code, is the only one, and the task exists, has ended and is on no CPU |
| SchedRuns.FreeIsSafe | kernel/src/kmt.c:121-131 | a task is freed only after it ended, by the one who has the claim to it, while no CPU is on it, and the only references left are those of CPUs between the look at it and the try of its lock |
| SchedRuns.ForgottenIff | kernel/src/kmt.c:90-131 | no reference at all is left exactly if every CPU that had looked at the task when it ended tried its lock before the free |
| SchedRuns.FreedAtMostOnce | kernel/src/shell/runcmd.c:73-127 | once a task is freed no CPU comes to free it again before its memory is a new task |
| SchedRuns.EndedIsClaimed | kernel/src/kmt.c:321-340 | an ended task is waited for by its parent, in the queue, or in one cleaner's hand, unless nobody claimed it |
| SchedRaces.SleeperIsTaken | kernel/src/kmt.c:90-93 | a run from the initial state in which a CPU takes a task that went to sleep after it was looked at |
| SchedRaces.DeadTaskStaysLocked | kernel/src/kmt.c:90-93 | a run in which a CPU gets the lock of a task that has ended, finds its slot empty, and keeps the lock with no current task |
| SchedRaces.TaskOnTwoCpus | kernel/src/kmt.c:90-93 | a run in which the slot of the ended task has a new task by then, which is current on two CPUs |
| SchedRaces.FreedWhileCurrent | kernel/src/kmt.c:90-93 | a run in which that task's parent comes to free it while one of them still has it as current |
| SchedRaces.FreedWhileSeen | kernel/src/kmt.c:90-91 | a run in which a task is freed between the look at it and the try of its lock |
| Kmt.Kernel.SaveUnlock | kernel/src/kmt.c:63-65 | the first step of a save: the lock of the last task is released |
| Kmt.Kernel.SaveStore | kernel/src/kmt.c:66-71 | the second: the current task becomes the last |
| Kmt.Kernel.ContextSave | kernel/src/kmt.c:59-73 | with any steps of the other CPUs between its two actions, the current task is the last one then |
| Kmt.Kernel.LookAt | kernel/src/kmt.c:90-90 | the look at the attributes of the task in a slot |
| Kmt.Kernel.GrabSeen | kernel/src/kmt.c:91-91 | the try of the lock of the task seen |
| Kmt.Kernel.SetCurrent | kernel/src/kmt.c:93-93 | the second read of the slot: the current task is what the slot holds then |
| Kmt.Kernel.ContextSwitch | kernel/src/kmt.c:77-104 | the slots are tried in the order of the random numbers, each from the state that the try before and then the other CPUs left; a try comes to nothing exactly if no ready task was in the slot or its lock was held; the first that does not gives the slot, and the CPU makes current what that slot holds at the second read; if all 9999 come to nothing it idles |
| Kmt.OneMiss | kernel/src/kmt.c:82-91 | a try in vain more extends the chain of states that the tries lead through |
| Kmt.Kernel.ContextClean | kernel/src/kmt.c:121-131 | with any steps of the other CPUs in between, the first task of the queue is taken, and put back if its lock is held or else freed; with an empty queue nothing happens |
| Kmt.Kernel.Trap | kernel/src/kmt.c:133-136 | save, switch and clean as they are specified, in this order, with any steps of the other CPUs between them: so the task that was current is the last one, and the CPU idles or is on the task of the first slot whose try was not in vain, unless it read the slot too late |
| Kmt.Kernel.CleanTake | kernel/src/kmt.c:121-123 | the first task is taken off the queue |
| Kmt.Kernel.CleanTry | kernel/src/kmt.c:124-129 | a task whose lock is held goes to the end of the queue, any other is freed |
| Kmt.Kernel.ExitUnlist | kernel/src/kmt.c:321-330 | exit marks the task and takes it off the table |
| Kmt.Kernel.ExitQueue | kernel/src/kmt.c:331-334 | a detached task ends in the reclaim queue, any other with its parent |
| Kmt.Kernel.BackDecide | kernel/src/shell/runcmd.c:118-126 | a son already ended is freed by its parent, any other is detached |
| Kmt.Kernel.ReapSon | kernel/src/shell/runcmd.c:78-80 | the parent frees the son whose lock it got |
| Sem.CountsAndOrder | kernel/src/kmt.c:254-307 | for every interleaving the value is initial + signals - waits, max(0, -value) tasks sleep, and those woken followed by those asleep are, in order, the tasks whose wait found no unit left, counting the signals and waits before it |
| Sem.SignalFindsSleeper | kernel/src/kmt.c:298-304 | the ring is never read empty |
| Sem.Semaphore.SemWait | kernel/src/kmt.c:264-292 | the running task takes a unit, or goes to sleep behind all others, and the sleep bit is set exactly on the sleepers |
| Sem.Semaphore.SemSignal | kernel/src/kmt.c:277-307 | the longest sleeper, and only it, is woken |
| Tiling.Increasing | kernel/src/alloc.c:38-43 | the blocks of the heap lie in order without overlap |
| Tiling.ByteHasBlock | kernel/src/alloc.c:38-43 | every byte of the heap lies in exactly one block |
| Tiling.Split | kernel/src/alloc.c:66-73 | cutting the end off a block keeps the heap tiled |
| Tiling.Merge | kernel/src/alloc.c:122-135 | joining two neighbours keeps the heap tiled |
| FreeLists.RingRemove | kernel/src/alloc.c:74-77 | pointing the node before a block past it takes exactly that block off the ring |
| FreeLists.RingInsert | kernel/src/alloc.c:125-128 | linking a block behind a node puts it there in the ring |
| Alloc.CutGood | kernel/src/alloc.c:33-45 | cutting a block keeps tiling, ownership and every free list |
| Alloc.UnlinkGood | kernel/src/alloc.c:74-77 | so does taking a block off a free list |
| Alloc.LinkGood | kernel/src/alloc.c:125-128 | so does putting one on |
| Alloc.JoinGood | kernel/src/alloc.c:122-135 | so does joining a block to the one that ends where it starts |
| Pmm.BlocksApart | kernel/src/alloc.c:11-13 | two different blocks share no byte, headers included, and none leaves the heap |
| Pmm.EveryByteHasOwner | kernel/src/alloc.c:11-13 | every byte belongs to exactly one block, which is the global one, in use, or on exactly one CPU's list |
| Pmm.TakeKeeps | kernel/src/alloc.c:66-77 | taking n bytes from a free block gives a block that was not in use, at least that large, and changes nothing else in use |
| Pmm.PageKeeps | kernel/src/alloc.c:80-86 | a page cut from the global block goes to the end of the caller's list, and nothing in use changes |
| Pmm.FitsNewPage | kernel/src/alloc.c:59-87 | after a page was added, the second pass ends at it |
| Pmm.AllocPlace | kernel/src/alloc.c:55-88 | the first block of the list that is large enough gives its last n bytes and keeps the rest, or comes off the list whole when the rest has no room for a header; if none is, a page of max(n, 8192) bytes off the end of the global block becomes the last of the list and gives them; all other blocks keep place and size |
| Pmm.ReturnKeeps | kernel/src/alloc.c:119-128 | putting a block back, alone or into its left neighbour, takes exactly it out of use |
| Pmm.SwallowKeeps | kernel/src/alloc.c:129-135 | merging with the block behind changes nothing in use |
| Pmm.FreePlace | kernel/src/alloc.c:102-136 | the block goes in front of the first one behind it; if the one before ends at it, or it ends at the one behind, they are one block from the start of the first to the end of the last, and the one behind is off the list; all other blocks keep place and size |
| Pmm.Count | kernel/src/alloc.c:90-96 | the wrapped counters still tell the sum |
| Pmm.Allocator.constructor | kernel/src/alloc.c:18-31 | one block from the first page boundary to the end of the heap, and empty rings |
| Pmm.Allocator.Scan | kernel/src/alloc.c:61-78 | first fit in list order |
| Pmm.Allocator.KallocReal | kernel/src/alloc.c:55-88 | at most two passes over the list; the list and the sizes change as AllocPlace says; fails exactly when nothing on it fits and the global block is too small |
| Pmm.Allocator.Kalloc | kernel/src/alloc.c:90-100 | a block not in use before, of the size asked rounded up to 16 and less than a header more, taken from the first block that fits or from a new page, is now in use and nothing else changed; alloc_cnt - free_cnt is the sum of the sizes in use, modulo 2^32 |
| Pmm.Allocator.KfreeReal | kernel/src/alloc.c:102-136 | the block is in use no more, and on the list it is merged with the blocks it touches, to the left and to the right, as FreePlace says |
| Pmm.Allocator.Kfree | kernel/src/alloc.c:138-144 | exactly that block is in use no more, merged on the caller's list with the free blocks it touches; freeing NULL does nothing; the lists of other CPUs stay |
| Pmm.Allocator.MemQuery | kernel/src/alloc.c:152-155 | the size of the heap and the bytes in use |
| MergeSort.MergeSorts | abstract-machine/apps/coremark/src/core_list_join.c:453-478 | merging two sorted runs gives a sorted one |
| MergeSort.MergeIsStable | abstract-machine/apps/coremark/src/core_list_join.c:456-469 | of nodes with equal idx those of the first run come first, each run in its order |
| MergeSort.PassKeeps | abstract-machine/apps/coremark/src/core_list_join.c:432-492 | a pass doubles the length of the sorted runs, keeps the nodes, and the order of equal ones |
| MergeSort.StableSortIsUnique | abstract-machine/apps/coremark/src/core_list_join.c:405-425 | only one order of the nodes is sorted and keeps the order of equal ones |
| MergeSort.MergesOne | abstract-machine/apps/coremark/src/core_list_join.c:486-491 | a pass makes at most one merge exactly when one merge makes the whole list |
| CoreList.SegAppend | abstract-machine/apps/coremark/src/core_list_join.c:471-477 | pointing the tail at a node appends it to the merged list |
| CoreList.Cells.CmpIdx | abstract-machine/apps/coremark/src/core_list_join.c:107-117 | the difference of the idx, with both data items regenerated if there is no results record |
| CoreList.Cells.StepRun | abstract-machine/apps/coremark/src/core_list_join.c:441-448 | q is insize places on, or NULL, and psize the places gone |
| CoreList.Cells.MergeRuns | abstract-machine/apps/coremark/src/core_list_join.c:453-478 | the inner loop appends the merge of the two runs, in place, and leaves the rest of the list |
| CoreList.Cells.SortPass | abstract-machine/apps/coremark/src/core_list_join.c:433-484 | one pass over the links is one pass over the sequence of nodes, counting its merges |
| CoreList.AllCovered | abstract-machine/apps/coremark/src/core_list_join.c:107-117 | at the end every node of a list of two or more has been compared |
| CoreList.RegenCopiesByte | abstract-machine/apps/coremark/src/core_list_join.c:109-112 | regenerating keeps the high byte of the data and makes the low byte equal to it |
| CoreList.Cells.MergeSort | abstract-machine/apps/coremark/src/core_list_join.c:426-496 | a NULL-terminated list of exactly the same nodes, with idx never falling, equal ones in their old order, the low byte of all data a copy of the high one if there is no results record and more than one node, and no other node changed; it ends |
| Words.OrIsSum | abstract-machine/libs/compiler-rt/udivmoddi4.c:111-117 | joining shifted halves with a bitwise or is adding them |
| Words.ShlIs | abstract-machine/libs/compiler-rt/udivmoddi4.c:111-117 | a 32-bit left shift keeps the low digits, moved up |
| Words.PowerOfTwo | abstract-machine/libs/compiler-rt/udivmoddi4.c:88-97 | d & (d - 1) is 0 exactly for a power of two, 2 to the trailing zeros |
| Words.AndMask | abstract-machine/libs/compiler-rt/udivmoddi4.c:127-138 | masking with 2^k - 1 is the remainder |
| UDivMod.SignCompares | abstract-machine/libs/compiler-rt/udivmoddi4.c:216-225 | the sign bit of d - r - 1 modulo 2^64 is set exactly when r >= d, as long as r < 2d and, for d above 2^63, r >= 2^63 |
| UDivMod.DivideStep | abstract-machine/libs/compiler-rt/udivmoddi4.c:208-226 | one round of the loop keeps n = (quotient so far * d + r) * 2^sr + digits to come, r < d, and the digits packed in q; r never leaves 64 bits |
| UDivMod.LargeDivisor | abstract-machine/libs/compiler-rt/udivmoddi4.c:102-110 | a divisor above 2^63 leaves one round, with the dividend at least 2^63 |
| UDivMod.ShiftLeft | abstract-machine/libs/compiler-rt/udivmoddi4.c:211-215 | the four half-word shifts are one 128-bit shift |
| UDivMod.SubtractIf | abstract-machine/libs/compiler-rt/udivmoddi4.c:216-225 | d is subtracted exactly when r >= d, and carry says so |
| UDivMod.DivideLoop | abstract-machine/libs/compiler-rt/udivmoddi4.c:202-230 | the loop ends with quotient and remainder |
| UDivMod.ShiftLow | abstract-machine/libs/compiler-rt/udivmoddi4.c:111-117 | setting up r and q splits the dividend after its last sr digits |
| UDivMod.ShiftHigh | abstract-machine/libs/compiler-rt/udivmoddi4.c:161-168 | the same when more than a half-word is split off |
| UDivMod.BothHigh | abstract-machine/libs/compiler-rt/udivmoddi4.c:170-200 | the case of both halves of the divisor |
| UDivMod.DivisorLowZero | abstract-machine/libs/compiler-rt/udivmoddi4.c:57-118 | the cases of a divisor without low half |
| UDivMod.DivisorHighZero | abstract-machine/libs/compiler-rt/udivmoddi4.c:121-169 | the cases of a divisor without high half |
| UDivMod.UDivModDi4 | abstract-machine/libs/compiler-rt/udivmoddi4.c:24-231 | for every a and every b > 0: a = q * b + r and r < b |
| SDivMod.TruncTruncates | abstract-machine/libs/compiler-rt/divdi3.c:17-29 | the quotient without its fraction leaves a remainder smaller than b with the sign of a |
| SDivMod.TruncIsUnique | abstract-machine/libs/compiler-rt/divdi3.c:17-29 | no other quotient does |
| SDivMod.DivDi3 | abstract-machine/libs/compiler-rt/divdi3.c:19-29 | the truncating quotient, modulo 2^64 |
| SDivMod.ModDi3 | abstract-machine/libs/compiler-rt/moddi3.c:19-30 | the remainder of the truncating division, exactly |
| SDivMod.QuotientExact | abstract-machine/libs/compiler-rt/divdi3.c:19-29 | the quotient is exact unless the smallest number is divided by -1, and q * b + r is a modulo 2^64 even then |
| Fix16.Wrap32Is | abstract-machine/libs/fixmath/src/fix16.c:128-142 | a sum kept in 32 bits is the same modulo 2^32, and unchanged if it fits |
| Fix16.RoundsHalfAway | abstract-machine/libs/fixmath/src/fix16.c:148-164 | the rounded number is the nearest, and of two equally near ones that further from zero |
| Fix16.TwoWords | abstract-machine/libs/fixmath/src/fix16.c:124-137 | the two words are the product, 2^48 off for each wrap of the mixed sum, with the carry out of the low word |
| Fix16.RoundsRight | abstract-machine/libs/fixmath/src/fix16.c:148-164 | subtracting a half, and one more below zero, with its borrow, then cutting and adding one rounds halves away from zero |
| Fix16.Mul | abstract-machine/libs/fixmath/src/fix16.c:113-166 | a*b/2^16 rounded half away from zero if a*b is within 2^47, else the overflow value, for exactly the operands of MulExact; the same of the product 2^48 off when the mixed sum does not fit in 32 bits |
| Fix16.ProductIs | abstract-machine/libs/fixmath/src/fix16.c:139-164 | the result is the rounded product if that is above -2^31 and below 2^31, and the overflow value otherwise |
| Fix16.MulRightIff | abstract-machine/libs/fixmath/src/fix16.c:127-142 | the result is right exactly if the mixed sum fits in 32 bits, or both the product and the product less a wrap are beyond 2^47 - 2^15 |
| Fix16.MixedSumCanWrap | abstract-machine/libs/fixmath/src/fix16.c:128-142 | a small product reported as an overflow |
| Fix16Div.QuotientIs | abstract-machine/libs/fixmath/src/fix16.c:343-358 | a quotient of less than 2^31 is the nearest number to a*2^16/b; any other is the overflow value |
| Fix16Div.DivStep | abstract-machine/libs/fixmath/src/fix16.c:320-339 | a round keeps dividend * 2 = 2 * quotient * d + remainder * 2^bits to go |
| Fix16Div.FitsOrNot | abstract-machine/libs/fixmath/src/fix16.c:330-335 | the test of the partial quotient decides whether the whole quotient fits in 32 bits |
| Fix16Div.Kick | abstract-machine/libs/fixmath/src/fix16.c:303-311 | what the kick start leaves, with the excess its truncation adds |
| Fix16Div.Div | abstract-machine/libs/fixmath/src/fix16.c:290-360 | a*2^16/b rounded half away from zero, or the overflow value when it does not fit, for exactly the operands of DivExact, and within one of it for all others; the minimum for b = 0 |
| Fix16Div.SeenIsRight | abstract-machine/libs/fixmath/src/fix16.c:303-311 | below 2^20 nothing is off |
| Fix16Div.SeenIsNear | abstract-machine/libs/fixmath/src/fix16.c:303-311 | the result is off by at most one, and right exactly for a divisor below 2^20 or under a condition on the remainder of the division |
| Fix16Div.ExcessShows | abstract-machine/libs/fixmath/src/fix16.c:303-311 | two operands with a quotient of 24 that comes out as 25 |
| Fix16Sqrt.NearestIsUnique | abstract-machine/libs/fixmath/src/fix16_sqrt.c:75-80 | the nearest whole root is one number |
| Fix16Sqrt.RootStep | abstract-machine/libs/fixmath/src/fix16_sqrt.c:36-48 | a digit more keeps num what the square of the partial root leaves |
| Fix16Sqrt.RootDigits | abstract-machine/libs/fixmath/src/fix16_sqrt.c:36-48 | the loop ends with the whole root and the rest, nothing exceeding 32 bits |
| Fix16Sqrt.Sqrt | abstract-machine/libs/fixmath/src/fix16_sqrt.c:12-84 | the whole number nearest to sqrt(\|v\| * 2^16), with the sign of v, for exactly the numbers of SqrtExact; for every v the nearest root of \|v\| * 2^16 less the slip |
| Fix16Sqrt.RightIff | abstract-machine/libs/fixmath/src/fix16_sqrt.c:53-64 | the root is right exactly if nothing slips (as for all numbers below 2^30), or what the whole root of n * 2^16 leaves is not in the 0x4000 numbers above that root |
| Fix16Sqrt.SmallSlip | abstract-machine/libs/fixmath/src/fix16_sqrt.c:53-64 | below 2^30 nothing slips |
| Fix16Sqrt.SlipShows | abstract-machine/libs/fixmath/src/fix16_sqrt.c:53-64 | a number whose root comes out one too small |
| Fix16Str.ItoaLoop | abstract-machine/libs/fixmath/src/fix16_str.c:10-26 | the digits printed stand for the value, without leading zeros, or with one digit for every place |
| Fix16Str.ToStr | abstract-machine/libs/fixmath/src/fix16_str.c:28-58 | sign, whole part and decimals stand for the magnitude rounded to that many decimals, in at most 12 characters |
| Fix16Str.FromStr | abstract-machine/libs/fixmath/src/fix16_str.c:60-113 | the number a text stands for: spaces, sign, one to five digits, up to five decimals; the overflow value for all else |
| Fix16Str.ParsedText | abstract-machine/libs/fixmath/src/fix16_str.c:60-113 | for every text split into spaces, sign, digits, a fraction after a point or comma, and a rest: the number of the digits if the rest is digits and spaces only, and else the overflow value |
| Fix16Str.ParsedDecimal | abstract-machine/libs/fixmath/src/fix16_str.c:60-113 | what the parser makes of a decimal number |
| Fix16Str.RoundTrip | abstract-machine/libs/fixmath/src/fix16_str.c:28-113 | reading what was printed with five decimals gives back every int32 value |
| Fix16Str.AnswerRightIff | abstract-machine/libs/fixmath/src/fix16_str.c:80-112 | no digits, more than five, and a whole part above 32768, or 32768 without a minus, give the overflow value; a number read is the nearest one exactly when it is in range; below -32768 a positive one comes out |
| Fix16Str.TooNegative | abstract-machine/libs/fixmath/src/fix16_str.c:80-112 | "-32768.5" reads as 32767.5 |
| Pipe.ReadThenRing | kernel/src/pipe.c:42-50 | the bytes read followed by the at most 255 bytes in the ring are the bytes written |
| Pipe.CopyInKeeps | kernel/src/pipe.c:97-98 | writing into the free part, also with indices at 256, disturbs no byte of the ring |
| Pipe.PublishKeeps | kernel/src/pipe.c:99-99 | moving the tail on adds exactly the bytes copied in |
| Pipe.ConsumeKeeps | kernel/src/pipe.c:72-73 | moving the head on takes exactly the next bytes |
| Pipe.WrapKeeps | kernel/src/pipe.c:66-95 | an index at 256 and at 0 mean the same |
| Pipe.OfferedJoin | kernel/src/pipe.c:80-103 | what the writer has put in over two stretches of turns is what it offered over both |
| Pipe.Ring.Write | kernel/src/pipe.c:80-103 | whatever turns the reader takes between the steps, all bytes go in, in order, and the reader gets only as many as its turns ask for; every copy stays in the buffer; the waiting and the recursion end |
| Pipe.Ring.Read | kernel/src/pipe.c:53-78 | whatever turns the writer takes between the steps, it returns, in order, as many of the bytes written when the size was last looked at as were asked for; so nothing for a count above 0 exactly if all those had been read, and then the pipe is closed, and if it was open a turn of the other side has closed it; only such turns write and close |
| Pipe.Ring.ReadMissesByte | kernel/src/pipe.c:57-60 | a writer that writes a byte and closes the pipe between the two tests makes it return nothing with the byte in the ring |
| Paths.ComponentsOfJoin | kernel/src/dir.c:30-64 | the parts of p/q are the parts of p and then those of q |
| Paths.AppendedIsNormal | kernel/src/dir.c:70-91 | the result of appending any path is normal |
| Paths.AppendTwice | kernel/src/dir.c:70-91 | appending p and then a relative q is appending p/q |
| Paths.AppendOne | kernel/src/dir.c:37-60 | a name appended and then ".." give the path back, ".." stays at the root, and "." and "" change nothing |
| Paths.AppendAbsolute | kernel/src/dir.c:70-74 | an absolute path leads to the same place from everywhere |
| Paths.RenderedReadsBack | kernel/src/dir.c:70-91 | a normal path read part by part gives the stack it renders |
| Paths.RenderInjective | kernel/src/dir.c:70-91 | no two stacks render alike |
| Dir.GetLastSlash | kernel/src/dir.c:21-29 | the last slash of the string in the buffer, or -1 |
| Dir.GoUp | kernel/src/dir.c:49-52 | ".." takes off the last name with its slash, but not the root |
| Dir.CatPart | kernel/src/dir.c:33-61 | one part of the path goes onto the directory in the buffer |
| Dir.DirCatReal | kernel/src/dir.c:30-64 | all parts in turn |
| Dir.DirCat | kernel/src/dir.c:70-91 | the buffer holds the rendering of the stack after walking src's parts over it, from the root if src is absolute; for a single name that is the old text, a slash and the name, for ".." the text without its last name, and for "." and "" the old text |
| Tokens.LexIff | kernel/src/shell/parse.c:83-139 | the tokens found are the only ones for which the text consists of them and of white space, each spelled as its kind says: "\|", "(", ")", ";", "&", "<", ">" with no other behind it, ">>", words without white space and symbols as long as can be, and text between two equal quotes |
| Tokens.LexSpread | kernel/src/shell/parse.c:83-139 | words of the line do not overlap, and between two lies a character of neither |
| Grammar.ParsesTheGrammar | kernel/src/shell/parse.c:160-285 | the descent accepts exactly the token sequences of the grammar and builds the command each stands for |
| Grammar.Unambiguous | kernel/src/shell/parse.c:160-285 | no line stands for two commands |
| Grammar.LineWords | kernel/src/shell/parse.c:177-285 | every word and file name of the line is in its command, exactly as often |
| Grammar.LineOrder | kernel/src/shell/parse.c:177-285 | the words of a command, and its redirections from the inside out, are those of its line in their order |
| Grammar.RedirsSigned | kernel/src/shell/parse.c:207-230 | in front of the file of each redirection stands, with white space at most between them, the sign "<", ">" or ">>" that is its mode |
| ShellParse.GetToken | kernel/src/shell/parse.c:83-139 | the next token, its place and the rest of the line |
| ShellParse.Peek | kernel/src/shell/parse.c:141-153 | whether the next token starts with one of the symbols, without losing any |
| ShellParse.GetRedirs | kernel/src/shell/parse.c:207-230 | the redirections at this place, in order, or a failure |
| ShellParse.ParseWords | kernel/src/shell/parse.c:248-285 | a simple command with its words and redirections, at most nine words |
| ShellParse.ParseBlock | kernel/src/shell/parse.c:232-246 | a line in parentheses and its redirections |
| ShellParse.ParsePipeline | kernel/src/shell/parse.c:194-205 | commands joined by bars, to the right |
| ShellParse.ParseLine | kernel/src/shell/parse.c:177-192 | pipelines with their ampersands, joined by semicolons |
| ShellParse.NulTerminate | kernel/src/shell/parse.c:287-332 | exactly the ends of the command's words and file names get an end mark |
| ShellParse.MarksApart | kernel/src/shell/parse.c:287-332 | no end mark falls inside another word |
| ShellParse.ParseCmd | kernel/src/shell/parse.c:160-175 | exactly the lines of the grammar are accepted, over the tokens that the text is made of; the command has their words and redirections in order, each with the mode of the sign written before its file; then every word and file name, read as a C string, is the text of its token |

## Left out

- Skyline.WasteIsArea: waste is an unbounded number; that it could exceed 32 bits in very large bins is not modelled.
- RectPack.Context.PackRects: the sorts are any orders the comparators allow, as qsort leaves them; rect_width_compare is never used and left out. Best fit requires the aligned width to be at most the bin width, since the walk to the first tail has no end check.
- RectPack.Context.constructor: requires at least one node and a positive width, without which the links written are out of bounds.
- KvStore.KvFile.Put: blocks and records are kept by their offsets in the file rather than byte by byte (their extents are proved apart); crash recovery and the backup record, file locks, the hash check and failing system calls are not modelled; requires non-empty strings, since alloc_str stores no empty one (see AllocStr); the file must stay below 2^32 bytes.
- KvStore.KvFile.Get: a failing malloc is not modelled; kvdb_traverse and string_puts only print.
- SchedRuns.SlotsAreLocks: for runs in which no slot is read too late, since it is false of the others (LocksFitIff); what a CPU does with the pointer after that is not modelled. The pointer looked at is the one whose lock is tried, as both are in one expression with no call in between; the memory of a freed task keeps its held lock until it is a task again; saved contexts, interrupt state, stack fences and file descriptors are not part of the state; the random choice is any choice.
- SchedRuns.NoTaskIsMissing: new tasks get memory that is no task's and a slot that is free; the rings of all semaphores are kept as one bag, and their order and counts are those of module Sem.
- Kmt.Kernel.OtherSteps: the other CPUs take any steps but late reads of a slot.
- SchedRuns.EndedIsClaimed: a full reclaim queue loses the task, as "Dropped"; run_pipe_cmd, whose two sons share one allocation, is not modelled.
- Kmt.Kernel.ContextSwitch: the 10000 random tries are a sequence of numbers handed in; empty table slots count as not ready.
- Sem.Semaphore.SemWait: requires fewer than POOL_LEN sleepers, as the ring has no check; the lock around the counter makes each call one step.
- Pmm.Allocator.Kalloc: clearing the memory and the fence words are left out; a call is one step of its CPU; the size asked must be less than 2^32 - 32, so that adding a header does not wrap around.
- Pmm.Allocator.Kfree: requires a block in use, as the code does; the sentinels are taken to lie below the heap.
- CoreList.Cells.MergeSort: requires a node, and fewer than 2^31; the comparison is cmp_idx only, since cmp_complex calls into the benchmark's other kernels.
- UDivMod.UDivModDi4: a divisor of 0 is the caller's error; the rem pointer is always given.
- Fix16.Mul: the 64-bit and 8-bit variants, saturating arithmetic, and the trigonometric and exponential functions are left out.
- Fix16Str.FromStr: a count of more than 2^31 digits is not modelled; a character is a space if it is one of the six of the C locale.
- Pipe.Ring.Write: what the other side does in each of its turns is given, with the assumption that a reader takes something, and a writer writes something or closes the pipe, at last; more than one writer or reader is not modelled.
- Dir.DirCat: requires a buffer large enough for both paths and a slash, and a normal path in it; to_absolute copies an absolute path as it is and is left out.
- ShellParse.ParseWords: the tree that the code builds above the simple command while it is still being filled is put together at its end; a panic ends the parse with no result.
- The rest of the repository (file systems, devices, the shell's built-in commands, the benchmark's other kernels, games and tools) is not modelled: device access, user interface, or easy members only.
