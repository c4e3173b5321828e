# A kernel's scheduler, file system and page tables, modelled and proved

The repository is a small AArch64 kernel. This project models its three algorithmic parts and proves what they are for.

**The run queue.** `src/rbtree.c` is an intrusive red-black tree with parent links, a colour bit and a cached leftmost
node; `src/fair.c` keeps runnable entities on it in order of virtual time, with a fixed-point division by a cached
reciprocal; `src/sched.c` and `src/fork.c` drive it.

- `RbShape`, `RbLinks`, `RbSteps` and `RbSplice` are about trees as values: a tree and the path above it, the cells of
  memory that store them, and one step of each loop. `RbTree.RbRootCached` is the code: loops that rewrite links in
  place. Its `Valid()` says that the links of the nodes store the ghost field `tree` (child and parent links agree),
  that the tree has a black root, no red node below a red one and equal black heights, and that `leftmost` is the first
  node in order.
- `FairModel` gives what each function of `src/fair.c` does to the queue as a value; `Fair.CfsRq` is the code, and each
  method ties `Abs()`, the queue it represents, to its old value. `FairLaws` says what these functions amount to without
  naming them: charges and slices in terms of times and weights, the floor in terms of keys. The order on the tree is
  kept apart from the shape: shape and accounting hold whatever the keys are.
- `SchedModel.Step` says how a tick, a call of `schedule`, an exit, a fork and a fork without memory change the state;
  `Sched.Scheduler` is the code. A run is a sequence of states and events. `SchedInv` proves what holds in every
  reachable state, `SchedLoads` that all entities weigh the same there, `SchedTime` that all the time that passes is
  charged, `SchedFirst` that those who wait keep their turn; `SchedOrder` and `SchedRuns` what holds while all virtual
  times lie in a window of less than 2^63 from a base `b`, `SchedLaws` when a tick flags the running task and what an
  exit and a fork leave there, `SchedCrossing` a short run that breaks the order, `Overtaking`, `TickRuns` and
  `TickProgress` how long an entity can wait, and `SchedCounts` which ones wait for ever.

**The block layer.** `src/ext2.c` stores the blocks of a file as twelve direct blocks and trees of pointers of height
one, two and three. `IndexTree` and `BlockMap` are these trees as values, `BlockCut` is the removal of the last block,
`Bytes` and `Ext2Disk` are words, bits and bitmaps in blocks of bytes. `Ext2.Ext2Fs` is the code on a disk of such
blocks: the ghost field `files` says which blocks each file consists of, and `Valid()` says that the inodes and the
pointers on the disk lead to just these, that all of them are marked as used, and that no block has two roles. `Books()`
compares the free counters with the bitmaps, `Spare()` is the number of free data blocks and `Stray()` that of blocks
which are marked although no file has them; `Ext2Free` says how many blocks an append needs, `Ext2Strays` how many a
file takes, `Ext2Turns` which ones, and `InodeEntries` which entries of an inode it uses. `Ext2IO` adds reading and writing of bytes, `Ext2Dirs` directories; `Ext2Undo` appends and
releases, and `Ext2Tiny` has small disks on which operations go wrong. Fan-out, number of groups, blocks per group and
block size are symbolic.

**The page tables.** `src/mm.c` maps pages through four levels of tables. `PageTables` is the walk, with a tag for each
table that says which page numbers pass through it, `PageCount` how many tables a set of pages takes, and `PageLists`
the list of tables that a task keeps; `Paging.Memory` and `Paging.AddressSpace` are the code, and `PageRelease` the part
of `exit_process` that gives the pages back.

## What the proofs brought to light

- Two things the scheduler does with a null entity can happen only outside a tick. A tick never faults; a voluntary
  `schedule` and `exit_process` dereference a null entity if and only if no other entity waits (`SchedInv.YieldFaultsIff`).
- The fork that lets the child run first exchanges the keys of the parent and of the child, which is linked already. The
  timeline stays in order if and only if no entity waits with a key behind the parent's and up to the child's
  (`SchedRuns.ForkOrderIff`, in terms of the state before the fork). Three events from `sched_init` are enough to break
  it: a fork, a tick that hands over to the child, and a fork by the child (`SchedCrossing.ForkBreaksOrder`).
- With the timer alone, a waiting entity is picked within a bounded number of ticks (`TickProgress.NobodyStarves`) if and
  only if it is not blocked: if the preemption count of the running task is not raised, and that of no task that stands
  before it is 2 or more (`TickProgress.PickedIff`). A blocked entity is never picked (`SchedCounts.NeverPicked`).
  `copy_process` returns without lowering the count again when it gets no page: from any state ticks then change nothing
  at all (`SchedCounts.Stalled`), and if the task calls `schedule` itself, it waits with a count of 2 or more and blocks
  those behind it (`SchedCounts.YieldsHeld`).
- `__calc_delta` never gives more than delta * weight / load if and only if the reciprocal it multiplies with is not
  rounded up (`Fixed.NeverMoreIff`). One that `__update_inv_weight` has computed is not; that the load of the queue has
  none or just this one is part of what holds in every reachable state. Some in the table of `src/sched.c` are, and a task
  of nice level -18 is charged one unit too many for 212418 units of time (`Fixed.TableChargesMore`).
- `schedule` adds the absolute value of min_vruntime to the virtual time of the running entity, which may leave the window
  early.
- `set_inode_block` succeeds if and only if there are as many free blocks as it needs blocks of pointers, which is 0 to 3
  by the length of the file (`Ext2Free.Need`). When it runs out of them, a pointer behind the end of the file may have been
  written already; the file does not notice, and neither does the next append. `insert_entry` does not look at the result:
  with a free block for the entry, but not enough for the pointers to it, it reports success for an entry that is in no
  directory (`Ext2Dirs.InsertEntry`, and `Ext2Tiny.EntryLost` on a disk with one free block).
- `ext2_write` stores the new size before it looks for blocks, so the size grows even if the write fails
  (`Ext2Tiny.SizeGrows`, on a disk with one free block). Such a write uses up the disk: as many blocks go into the file as
  can, and the rest stay marked although no file has them (`Ext2IO.Write`, with `Ext2IO.RanOut`).
- The bytes behind a write that continues into a further block and stops within it are zeroed up to the end of that block:
  they survive if and only if they were zero before (`Ext2IO.ReadAfterWrite`, and `Ext2Tiny.WriteFive`, which loses
  three).
- `release_dir_entry` recognises the last entry by its inode. It removes the entry it is asked to remove if and only if
  that is the last one or the last one has another inode (`Directories.MovedIff`); otherwise it leaves a hole, as with
  "." and ".." of the root (`Ext2Tiny.FirstReleased`).
- The inode table of the shipped format is too small: it has four blocks of eight inodes in each group, which has 175
  inodes. From the 33rd on they lie in the data blocks behind it (`Ext2Files.InTableIff` and `Ext2Files.TableTooSmall`).
  The position in a block is computed from the number on the whole disk, so the inodes of a group lie one behind the
  other if and only if they fill whole blocks (`Ext2Files.InOrderIff`); no two share a place in any case.
- `map_page` fills the list of tables from entry 1 on, and `exit_process` frees the entries from 0 on. So the table made
  last stays in use: an exit gives back all the pages of a task if and only if it has no tables
  (`PageRelease.ReleasePages`), and a task that is forked with a copied page and exits costs a page
  (`PageRelease.CopyAndExit`).
- `map_table` does not check whether it got a page. `copy_virt_memory` reports the lack of a frame, so it is right if the
  pages do not run out behind a frame; how many it takes follows from the page numbers alone (`PageCount.PagesForIs`).

## Model

| member | source | states |
|---|---|---|
| RbTree.RbRootCached.InsertColor | src/rbtree.c:84-203 | From any tree with one red node that may lie below a red one, the loop ends with a red-black tree in the same order and all links agreeing |
| RbTree.RbRootCached.InsertRecolor | src/rbtree.c:100-133 | Recolouring moves the violation two levels up, which is what makes the loop end |
| RbTree.RbRootCached.Insert | src/rbtree.c:51-57 | Linking a node at the end of any descent and rebalancing adds it there to the order, and the leftmost node is again the first one |
| RbTree.RbRootCached.Next | src/rbtree.c:59-82 | The in-order successor, or null behind the last node |
| RbTree.RbRootCached.EraseAugmented | src/rbtree.c:205-298 | The node is taken out of the order; the result is the parent of a side that is one black node short, or null if the tree is red-black already |
| RbTree.RbRootCached.EraseColor | src/rbtree.c:300-423 | From a tree one black node short on one side, the loop ends with a red-black tree in the same order; the deficient side is found because its sibling is not null |
| RbTree.RbRootCached.Erase | src/rbtree.c:434-444 | Erasing any node of any valid tree leaves a valid tree with the same order less that node |
| RbShape.HeightBySize | src/rbtree.c:84-203 | A red-black tree of n nodes has height at most 2 * log2(n + 1) |
| RbShape.InOrderPlug | src/rbtree.c:59-82 | The order of a tree is that of the path before it, of the subtree, and of the path behind it |
| Fixed.CalcDeltaLoop | src/fair.c:63-80 | The shift loop computes the specified value and leaves the reciprocal cached |
| Fixed.HalvingsWithin32 | src/fair.c:63-80 | The loop shifts at most 32 times, and what is left fits into 32 bits |
| Fixed.CalcDeltaExact | src/fair.c:63-80 | The result is floor(delta * T / 2^32), T being weight * inv_weight cut to its 32 leading bits |
| Fixed.CalcDeltaMonotone | src/fair.c:63-80 | The result grows with delta |
| Fixed.CalcDeltaNeverMore | src/fair.c:63-80 | With a computed reciprocal it never exceeds floor(delta * weight / load), whatever wraps around |
| Fixed.NeverMoreIff | src/fair.c:63-80 | With any reciprocal it never exceeds floor(delta * weight / load), for all delta and weight, if and only if reciprocal * load is at most 2^32 |
| Fixed.TableChargesMore | src/sched.c:164-185 | With the third entries of the two tables it gives one more than that for a delta of 212418 |
| Fixed.CalcDeltaShortfall | src/fair.c:63-80 | An explicit bound on how far it falls short of that |
| Fixed.SlicesFit | src/fair.c:205-242 | For any number of entities whose weights add up to the load, the slices add up to at most the period |
| SchedInv.SlicesShareThePeriod | src/fair.c:205-242 | In every reachable state the slices of all runnable entities fit into `__sched_period(nr_running)` if their weights add up to less than 2^32 |
| SchedLoads.SlicesAlwaysFit | src/fork.c:29-40 | A child inherits the weight, so the slices fit in every state of every run if as many tasks as there can be, with the first weight, weigh less than 2^32 |
| Fair.CfsRq.UpdateMinVruntime | src/fair.c:119-146 | From any state the method leaves the queue as `FairModel.UpdateMinVruntime` has it, which is what `FairLaws.MinIsLeast` and `SchedOrder.MinNeverBack` are about |
| FairLaws.MinIsLeast | src/fair.c:119-146 | On an ordered timeline `update_min_vruntime` makes min_vruntime the least key of all on the queue, the running entity included, and leaves it alone if there is none |
| Fair.CfsRq.EnqueueTimeline | src/fair.c:149-173 | The entity is linked where the key before is not later and the key behind is later; the descent goes on exactly as often as the place it ends at is deep, which is at most 2 * log2(n + 1), and the cached leftmost node is right |
| Fair.CfsRq.DequeueTimeline | src/fair.c:176-179 | The entity leaves the timeline, the others stay in order |
| Fair.CfsRq.UpdateCurr | src/fair.c:251-271 | The running entity is charged and min_vruntime updated; `FairLaws.UpdateCurrCharges` says how much |
| FairLaws.UpdateCurrCharges | src/fair.c:251-271 | If time has passed, the sum of the running entity grows by it, and its virtual time by it if the weight is 1024, else by floor(time * T / 2^32), T being 1024 * reciprocal cut to its 32 leading bits and the product to 64 bits; nothing else changes but min_vruntime |
| FairLaws.ScaledShort | src/fair.c:63-80 | For less than 2^32 units of time nothing of the product is cut |
| Fixed.CalcDeltaWraps | src/fair.c:63-80 | The result for any delta, with the product cut to 64 bits |
| FairLaws.PeriodIs | src/fair.c:205-216 | The period is the latency, or the minimum granularity for each runnable entity if that is more |
| Fair.CfsRq.SchedSlice | src/fair.c:221-242 | The slice, and the reciprocal it leaves in the load |
| FairLaws.SliceIs | src/fair.c:221-242 | In every state with the invariant the slice is the share that the entity's weight has of the weights of all runnable entities, of their period; an entity that is not on the queue is counted in first |
| FairLaws.SliceLeaves | src/fair.c:221-242 | It leaves nothing but the reciprocal of the load, and only for an entity on the queue |
| SchedLoads.SlicesNeverTooShort | src/fair.c:205-242 | In every state of every run from `sched_init` every runnable entity has a slice of at least the minimum granularity less one, if as many tasks as there can be weigh at most 2^28 |
| Fair.CfsRq.PlaceEntity | src/fair.c:281-289 | The new entity is placed, as `FairModel.PlaceEntity` says |
| Fair.CfsRq.EnqueueEntity | src/fair.c:292-299 | Counted, and linked in its gap unless it is running |
| Fair.CfsRq.DequeueEntity | src/fair.c:302-313 | Charged, taken off and no longer counted |
| Fair.CfsRq.SetNextEntity | src/fair.c:347-359 | The entity leaves the tree and becomes the running one |
| Fair.CfsRq.PutPrevEntity | src/fair.c:373-384 | The running entity goes back to its gap if it is still on the queue |
| Fair.CfsRq.PickNextTask | src/fair.c:450-466 | The leftmost entity, before the old one is put back; null if nothing is counted or nothing is on the tree |
| Fair.CfsRq.CheckPreemptTick | src/fair.c:318-343 | Where no null entity is dereferenced, the flag is set as `FairModel.CheckPreemptTick` says; `SchedLaws.TickFlags` says when that is |
| Fair.CfsRq.EntityTick | src/fair.c:386-395 | A tick on the queue |
| SchedLaws.TickFlags | src/fair.c:318-395 | On an ordered timeline, with preemption not held off, a tick flags the running task if and only if others wait and it has run longer than its slice, or has run for the minimum granularity and is more than a slice ahead of one that waits |
| Fair.CfsRq.TaskForkFair | src/fair.c:408-433 | The child is placed, linked and, if it runs first, exchanges its key with the parent |
| SchedLaws.ForkExchanges | src/fair.c:408-433 | Of the two keys that a fork computes the child gets the lesser one if it is to run first, and then the parent is flagged |
| Sched.Scheduler.constructor | src/sched.c:47-68 | The state after `sched_init` is the initial state of every run |
| Sched.Scheduler.TimerTick | src/sched.c:119-132 | A tick is a `Tick` step, including the switch it may ask for |
| Sched.Scheduler.Yield | src/sched.c:96-101 | `schedule` is a `Yield` step if another entity waits |
| Sched.Scheduler.ExitProcess | src/sched.c:134-161 | `exit_process` is an `Exit` step if another entity waits |
| Sched.Scheduler.CopyProcess | src/fork.c:8-47 | `copy_process` is a `Fork` step, in which the child has the load of its parent, or a `ForkFails` step without a page |
| SchedTime.TimeAddsUp | src/fair.c:251-359 | In every state of every run from `sched_init` whose clock does not go backwards, the times for which the tasks have run add up to the time that has passed (modulo 2^64), and the running task has been charged up to the clock |
| SchedInv.StepInv | src/sched.c:81-161 | Every event keeps: nr_running counts the `on_rq` entities, load.weight adds up their weights, the tree holds exactly those other than the running one, each once; only the running one can be flagged, and then another waits |
| SchedInv.Reachable | src/sched.c:47-161 | All of it holds in every state that a run from `sched_init` reaches, and a tick does not fault there |
| SchedInv.TickNeverFaults | src/fair.c:318-343 | Neither the preemption check nor the switch that a tick asks for meets a null entity |
| SchedInv.YieldFaultsIff | src/sched.c:81-101 | A voluntary switch and an exit meet one if and only if no other entity waits |
| SchedOrder.MinNeverBack | src/fair.c:119-146 | In any state at all `update_min_vruntime` leaves min_vruntime alone or moves it forwards |
| SchedOrder.GapIsUnique | src/fair.c:149-173 | In an ordered timeline the gap lies behind all keys up to the new one, equal ones included, and before all later ones |
| SchedOrder.LinkStaysOrdered | src/fair.c:149-173 | Linking there keeps the order |
| SchedRuns.PickIsMinimal | src/fair.c:362-370 | After any event but a fork the processor has stayed where it was or has gone to an entity whose key is the least of all that waited |
| SchedFirst.FirstInFirstOut | src/fair.c:149-173 | In any run, while an entity waits, those behind it stay behind it and are not picked |
| SchedFirst.LinkedBehind | src/fair.c:149-173 | An entity is linked behind those with equal keys, so these are picked in the order of their arrival |
| SchedRuns.ForkOrderIff | src/fair.c:408-433 | A fork from a reachable state in order leaves the timeline in order if and only if, unless the child does not run first, no entity waits with a key behind the one that the charge gives the parent and up to the one that the child is placed at |
| SchedCrossing.ForkBreaksOrder | src/fair.c:408-433 | A run of three events from `sched_init` whose last one, a fork in a state that is in order, leaves the timeline out of order |
| SchedRuns.StepNeat | src/sched.c:81-161 | Every event that leaves the keys in the window keeps the order and the floor; every event but a fork lets the running entity go on or hands the processor to the leftmost one |
| Overtaking.MinIsFloor | src/fair.c:119-146 | In a run min_vruntime is at most the virtual time of every entity on the queue |
| SchedLaws.ExitAttains | src/sched.c:134-161 | After an exit with others waiting min_vruntime is the least key of those that are left |
| Overtaking.MinRises | src/fair.c:119-146 | In a run it never moves backwards, also over placement, switches and the addition in `schedule` |
| Overtaking.InitNeat | src/sched.c:47-68 | The state after `sched_init` is in order in the window that begins at 0 |
| Overtaking.BoundedOvertaking | src/fair.c:347-384 | In a run without forks in which those picked gain virtual time before they are put back, an entity waits for no more switches than the sum of max(0, v - v_e + 1) over the others |
| TickRuns.TicksBoundSwitches | src/fair.c:251-271 | Under the timer alone the gain follows from the ticks, and so there are only so many switches while an entity waits |
| TickProgress.NobodyStarves | src/sched.c:119-132 | Under a timer whose readings increase, an entity that is not blocked at the beginning waits for fewer than (Ahead + 1) * (period + 2) ticks, `Ahead` being that sum of debts |
| TickProgress.PickedIff | src/sched.c:119-132 | In a run of that many ticks a waiting entity is picked if and only if it is not blocked at the beginning |
| SchedCounts.NeverPicked | src/sched.c:95-132 | Under ticks alone an entity waits for ever if the running task, or a task before it as soon as it runs, holds preemption off |
| SchedCounts.RunLight | src/sched.c:81-161 | Preemption is not held off in any run in which every fork gets its page |
| SchedCounts.Stalled | src/fork.c:8-18 | A fork without a page, in any state, leaves a state in which any number of ticks changes nothing and all who wait are blocked |
| SchedCounts.YieldsHeld | src/sched.c:81-117 | A task with a raised count that calls `schedule` waits with a count of 2 or more, and those that stand behind it are blocked |
| IndexTree.LeafAt | src/ext2.c:1046-1115 | Division by the capacity of a child selects the child that holds the block |
| BlockMap.FileAt | src/ext2.c:1046-1115 | In which of the four ranges a block is found, and where in it |
| Ext2.Ext2Fs.GetInodeBlock | src/ext2.c:1046-1115 | Block n of a file, through up to three levels of pointers |
| Ext2Files.SlotsApart | src/ext2.c:595-614 | No two inodes share a place in the table, though the position in a block comes from the number on the whole disk |
| Ext2Files.SlotIs | src/ext2.c:595-614 | The group, the block and the position, by the sums they make up |
| Ext2Files.InOrderIff | src/ext2.c:595-614 | All inodes are where those of their group, one behind the other, would be if and only if the inodes of a group fill whole blocks |
| Ext2Files.InTableIff | src/ext2.c:595-614 | An inode lies within the first n blocks of the table if and only if its number in the group is below what these hold |
| Ext2Files.TableTooSmall | src/ext2.c:595-614 | In the shipped format an inode lies behind the table, in the data blocks, if and only if 32 or more come before it in its group |
| Ext2.FindClear | src/ext2.c:1330-1399 | The search through the bitmap finds the lowest clear bit, or 0 if there is none |
| Ext2.Ext2Fs.AllocFreeBlock | src/ext2.c:1330-1399 | The lowest free data block of the group, zeroed and marked, and nothing else; 0 if and only if the group is full; the books keep their balance |
| Ext2.Ext2Fs.AllocFrom | src/ext2.c:1147-1165 | Going round the groups from the given one, the lowest free data block of the first group that has any, every group passed being full; it fails only if every group is full |
| Ext2.Ext2Fs.TakeBlock | src/ext2.c:1147-1165 | It fails if and only if no data block is free; otherwise the next free block from the given group on, in no file, is in use, zeroed, there is one free block less, and the books keep their balance |
| Ext2Free.FirstFreeIs | src/ext2.c:66-86 | That block is the lowest of the first group with a free one, among all the free blocks of the disk |
| Ext2Disk.MarkedUsed | src/ext2.c:487-504 | Setting or clearing a bit changes the state of that block and of no other |
| Ext2.Ext2Fs.SetInodeBlock | src/ext2.c:1118-1327 | The block is appended to that file: the old blocks keep their numbers, every other file and all data stay as they are. It succeeds if and only if there are free blocks for all the blocks of pointers that the length of the file calls for, and takes exactly these; if it fails no file has changed, and every block that was free is marked although no file has it. The books keep their balance |
| InodeEntries.CleanMore | src/ext2.c:1118-1327 | Only the entry of the inode that leads to the new block changes, so entries that the file does not use stay zero |
| BlockMap.TreeAppends | src/ext2.c:1118-1327 | A tree with one more block, put in its place, appends the block to the file |
| Ext2.Ext2Fs.ReleaseBlock | src/ext2.c:1560-1653 | Of the last k blocks exactly the bits of these and of the blocks of pointers that only led there are cleared, group[g] grows by those in group g, and the rest still resolves |
| InodeEntries.CleanLess | src/ext2.c:1601-1650 | The entry that only led to the block released is zeroed, so entries that the shorter file does not use are zero again |
| Ext2.Ext2Fs.IncreaseFreeBlock | src/ext2.c:1656-1691 | The counters of the groups and of the superblock |
| Ext2.Ext2Fs.ReleaseLast | src/ext2.c:1560-1691 | Release and count together: for each group the free count plus the used bits, and the superblock's count less the sum of the groups', are what they were |
| Ext2Release.ReleaseInverts | src/ext2.c:1560-1653 | Releasing as many blocks as have been appended gives back the data blocks and exactly the blocks of pointers that were added |
| Ext2Undo.AppendAndRelease | src/ext2.c:1118-1691 | Appending k blocks succeeds if and only if there are free blocks for them and their pointers, and releasing them leaves every bit, every counter and the blocks of the file as they were before |
| BlockCut.CutIs | src/ext2.c:1601-1650 | Removing the last block undoes appending it, and says which blocks of pointers go |
| Ext2IO.Write | src/ext2.c:10-169 | It succeeds if and only if the offset is not behind the end and there are free blocks for all it adds, pointers included. Then the buffer is in its place, the block count is max(old, ceil((offset + length) / block size)), and the other files are untouched; a bad offset changes nothing. Out of blocks, the file has got as many as there was room for, pointers included, and the rest of those that were free are marked without being in a file. The new data blocks are taken in turn, the search beginning with the group of the inode. No other inode changes, and the books keep their balance |
| Ext2Turns.TurnsNext | src/ext2.c:63-95 | Each block that a growing file gets is the lowest free one, those it has got before being taken, in the first group with room, from the group of the block before it on |
| Ext2Turns.FirstInTurn | src/ext2.c:63-95 | The first of them is the lowest free block of the disk in the first group with room from the group of the inode on |
| Ext2IO.Read | src/ext2.c:186-248 | The bytes of the range; an error if and only if the offset is behind the end |
| Ext2IO.WriteThenRead | src/ext2.c:10-248 | A write and a read of the same range give the buffer back; of a regular file, up to 2^32 bytes, they succeed if and only if the offset is not behind the end and there are free blocks for all that the write adds |
| Ext2IO.ReadAfterWrite | src/ext2.c:10-169 | Reading back a write gives the buffer, the bytes before it are the old ones, and those behind it are kept if and only if the zeroed ones were zero |
| Contents.TailKeptIff | src/ext2.c:155-166 | When the bytes behind a write survive |
| Ext2Tiny.TailLost | src/ext2.c:155-166 | Every write of five bytes into a file of two blocks of four bytes zeroes the last three |
| Ext2Tiny.WriteFive | src/ext2.c:10-169 | Such a write succeeds |
| Ext2Strays.FileTakes | src/ext2.c:1118-1327 | A file of n blocks takes, pointers included, as many blocks as n appends to an empty file need |
| Ext2Strays.StraysAfter | src/ext2.c:10-169 | Free blocks that are taken while one file grows are in that file or stray, and the length of the file says how many are in it |
| Ext2Tiny.SizeGrows | src/ext2.c:50-106 | With twelve full blocks and one free block left, a write of one byte at the end fails; the size counts it, and the last block is neither free nor in the file |
| Directories.SameName | src/ext2.c:786-787 | `strcmp` on a name that ends within its entry |
| Ext2Dirs.Lookup | src/ext2.c:764-805 | It finds the first entry with the name, and nothing if and only if there is none |
| Ext2Dirs.InsertEntry | src/ext2.c:987-1043 | For a directory it reports success if and only if the last block has room or a block is free. The entry is there, at the place reported, and the directory packed with exactly one entry more, if and only if there is room or there are free blocks for the fresh block and all the pointers to it; otherwise nothing has happened to any file. A fresh block is the next free one from the group of the last block on. The books keep their balance |
| Ext2Dirs.InsertAndRelease | src/ext2.c:987-1556 | Releasing the entry at the place that the insertion reports leaves the directory as it was, and the books and the other files too |
| Ext2Dirs.InsertAndLookup | src/ext2.c:764-1043 | A new name is found at the place that the insertion reports |
| Ext2Tiny.EntryLost | src/ext2.c:987-1043 | With its twelve direct blocks full and one free block left, a directory is reported to have got an entry and has not |
| Ext2Dirs.ReleaseDirEntry | src/ext2.c:1506-1556 | The directory stays packed without the entry if and only if it was the last one or the last one has another inode; in any case it is shorter by one entry, whose slot has been filled as `Directories.FilledBy` says; the other files are untouched, and the books keep their balance |
| Directories.MovedIff | src/ext2.c:1537-1549 | Why: the replacement is a copy of the last entry, or else a hole |
| Directories.FilledBy | src/ext2.c:1537-1549 | What stands in each slot after the release: the entries that were there, and the copy or the hole |
| Ext2Tiny.FirstReleased | src/ext2.c:1506-1556 | A directory of two entries with the same inode, whose first one is released, does not become that with the second |
| Directories.RemovedIs | src/ext2.c:1537-1549 | Exactly one occurrence of the removed entry is gone |
| PageTables.TableAdded | src/mm.c:50-63 | A new table changes no translation |
| PageTables.EntryAdded | src/mm.c:43-48 | A new entry in a last-level table changes the translation of one page number |
| Paging.Memory.GetFreePage | src/mm.c:25-36 | The first page that was not in use, zeroed, or 0 if and only if there is none |
| Paging.Memory.FreePage | src/mm.c:38-41 | The page is not in use any more |
| Paging.Memory.MapPage | src/mm.c:65-88 | The walk of the mapped page number gives the frame and every other one translates as before; it takes exactly as many pages as tables were missing on the way, and lists them from the highest level down |
| PageLists.MadeOnce | src/mm.c:65-88 | The tables that a page adds to the list are determined, order included, by the tables there are then |
| PageCount.MissingIs | src/mm.c:50-63 | A table is missing on the way to a page if and only if that page shares it with none of the pages that have a frame |
| PageCount.PagesForIs | src/mm.c:65-88 | An address space takes one page for each frame and, for each of the four levels, one for each different table |
| Paging.Memory.AllocateUserPage | src/mm.c:16-23 | A zeroed frame that was free, mapped at the address, or 0 and nothing else if and only if no page is free |
| Paging.Memory.CopyVirtMemory | src/mm.c:90-100 | It copies all the pages if and only if there are enough for the frames and the tables, and takes exactly these: the copy translates the same addresses to frames of its own with the same contents. Otherwise it has copied the first ones. The original translates as before |
| PageRelease.ReleasePages | src/sched.c:147-153 | The frames and the tables of a task are free again but for the table made last; all are if and only if it has no tables |
| PageRelease.CopyAndExit | src/mm.c:90-100 | Copying an address space and releasing the copy leaves one page fewer free, the copy's last table, unless there was no page to copy or none free |

## Left out

- UART, interrupt controller, timer registers, boot and vector code, MMU registers and the context switch: `cpu_switch_to` and `set_pgd` change nothing in the model, the time of day is a parameter of the events.
- Interrupts inside `timer_tick` after it enables them: every event is atomic.
- The switch to a null entity when the last runnable one exits or yields: the events ask for another runnable entity, and `SchedInv.YieldFaultsIff` says that this is exactly what they need.
- Sched.Scheduler.ExitProcess: leaves out the branch for a task that is exiting already, which a task that has left the queue does not reach; the freeing of its pages is `PageRelease.ReleasePages`, because tasks and address spaces are modelled apart.
- TickProgress.NobodyStarves: is about runs of ticks alone, because a voluntary switch can come at any time and a fork can place entities ahead.
- Overtaking.BoundedOvertaking: forks and states outside the window of 2^63 are not covered, because a fork places new entities ahead of a waiting one and wrapped keys outside the window are not an order.
- SchedRuns.StepNeat: asks for room in the window at every event, because the addition in `schedule` can exceed any bound given beforehand.
- Fixed.CalcDeltaShortfall: is for weights below 2^32, because the code cuts larger ones to 32 bits.
- The test of `rb_next` for a node that is in no tree, and the word in which a node keeps its parent and its colour together: they are two fields.
- The mirror images in `src/rbtree.c` are written once, with the side as a parameter; so are the three cases of `set_inode_block` above the direct blocks, with the height as a parameter.
- The byte layout of superblock, group descriptors and inodes: the counters are fields, and the inode table is a map from places to inodes apart from the blocks of bytes. What an inode behind the table does to the data there is not modelled.
- The write to `inode->block` with an index of 15 or more in `release_block`, which lies outside the array, does nothing.
- Ext2.Ext2Fs.SetInodeBlock: a file can have as many blocks as three levels of pointers can hold; the arrays of MAX_BLOCK_PER_FILE block numbers in callers of `get_data_block_at_inode` are unbounded sequences.
- Ext2IO.Write: where the offset is within the file, is for lengths with which `end_write` stays below 2^32, because no buffer in memory is longer, and for files within three levels of pointers.
- Ext2IO.WriteThenRead: is for a buffer that is not empty and the ranges of `Ext2IO.Write`; an empty range at the end of the file is one that `Ext2IO.Read` leaves out.
- Ext2IO.Read: asks for a range within the blocks of the file, because the code reads uninitialised block numbers behind them.
- Ext2Dirs.InsertEntry: asks for a directory with at least one entry, because the code takes the number of the last block.
- Ext2Dirs.Lookup: asks for names that end within their entries, and compares the slot number with the number of slots before it reads the slot.
- Paging.Memory.MapPage: asks for as many free pages as tables are missing and for an address within 48 bits, because the code checks for neither; it does not model the bounds of the lists of pages.
- Paging.Memory.AllocateUserPage: asks for room for its tables whenever a frame is left, for the same reason.
- Paging.Memory.CopyVirtMemory: asks that the pages do not run out between a frame and its tables, for the same reason.
- PageRelease.ReleasePages: skips entry 0 of the list of tables, which is never filled; what `free_page` does with an address below the memory it manages is not modelled.
- `memcpy` in units of eight bytes: copies are exact.
- `ext2_format`, `ext2_create`, `ext2_mkdir` and `release_inode`: the model starts from any valid state; the last of these adds an uninitialised number to a counter.
- The shell, command lines, directory listings, `printf`, string helpers and the disk simulator.
