# Chickadee: verified models of the kernel's core algorithms

Chickadee is a small x86-64 kernel. This project models the parts of it whose correctness is hardest to see from the
code, and proves what they promise. Algorithms that update state in place are classes and methods over arrays, maps and
sequences, each proved against a specification; protocols between threads are state machines whose every interleaving is
covered; what a whole run guarantees is proved on top of that.

- **Buddy allocator** (`Bits`, `BuddyState`, `BuddySteps`, `BuddyTheory`, `BuddyAllocator`, `BuddyRuns`): one record per
  page and one free list per order. The invariant says that the root blocks are partitioned into aligned blocks whose
  pages agree, and that each list holds the heads of the free blocks of its order. While a block is being split or
  merged, the invariant holds around a hole. The free blocks turn out to be a function of the set of free pages.
- **Journal replay** (`JournalFormat`, `JournalReplay`, `JournalAnalysis`, `JournalChecks`, `JournalMarking`,
  `JournalReplayer`, `JournalRuns`, `JournalRecovery`, `JournalLoaded`, `JournalMeaning`, `JournalChecksum`,
  `JournalLayout`): the analysis of a loaded journal, the backward pass that flags overwritten references, and the
  replay, against plain replay of every reference in order; recovery from the disk that is cut short and started over;
  what analysis and replay come to, in terms of the fields of blocks; and the bytes and the checksum of blocks.
- **Sleeping and waking** (`FutexMutex`, `FutexHandover`, `FutexFairness`, `Scheduler`, `SchedulerSteps`,
  `SchedulerRuns`, `SchedulerWaits`, `SchedulerFairness`, `SchedulerTurns`): the three-state mutex over the kernel
  futex, and wait queues over run queues; what one call does by itself, what holds in every run, and what fair runs
  guarantee.
- **Page tables** (`PageTable`, `PageMeaning`, `Vmiter`, `VmiterClients`, `PtPositions`, `PtRemoval`, `PtIter`,
  `PtFree`): the iterator over virtual addresses, mapping and unmapping, and the iterator over table pages while its
  caller frees them.
- **Smaller parts**: `Crc32c` (four bytes at a time), `MemRanges` (typed address ranges), `FileIter` (file extents),
  `FreeBlocks` (the free-block bitmap), `PipeRing`, `FdTables` and `FdRuns` (pipes and descriptors), `LinkedList` (the
  intrusive list), `Numbers` (printing and parsing). `Util` holds what they share.

`dafny verify dfyconfig.toml` checks everything.

## What the code does not meet

Eight promises fail on some inputs. Each has a lemma or method that says exactly when it holds or, for `list::insert`,
that it never does; each but the last has an input on which it fails.

- `try_map(0, 0)` does not unmap an address inside a large page (`VmiterClients.Unmap`,
  `VmiterClients.LargePageExample`).
- A journal is replayed as it was loaded unless a data block that is written looks like an unflagged metablock
  (`JournalLoaded.LoadedReplay`); there are such journals for CRC32C (`JournalChecksum.StaleExists`,
  `JournalChecksum.FlaggedDataIsReplayed`).
- Appending an extent to a file whose last extent is a hole can lengthen the hole instead (`FileIter.FileIter.Append`,
  `FileIter.AppendedAsAsked`, `FileIter.HoleExample`).
- When an indirect block cannot be loaded, the file seems to end there, and an extent can be put into the middle of the
  file (`FileIter.FileIter.Insert`, `FileIter.LostExample`).
- `memrangeset::set` can refuse an assignment whose result would fit, because it cuts ranges before it drops those
  inside (`MemRanges.SpuriousRefusal`, `MemRanges.RefusalExample`).
- `strtoul` takes the characters from ':' up to '0' + base for digits in bases above 10 (`Numbers.DigitIsStandard`,
  `Numbers.NumeralSaturates`, `Numbers.ColonIsADigit`).
- `strtoul` returns 1 instead of the largest number for a numeral out of range with a minus sign (`Numbers.OutOfRange`,
  `Numbers.OutOfRangeExample`).
- `list::insert` tests its position the wrong way round, and inserts at the end when it is given one
  (`LinkedList.Memory.Insert`, `LinkedList.InsertMissesItsPlace`).

## Model

| member | source | states |
|---|---|---|
| Bits.PowerOfTwoTest | k-alloc.cc:55-71 | `x - 1` and `x` share no bit exactly if `x` is a power of two |
| BuddyAllocator.Order | k-alloc.cc:55-71 | the least order whose blocks hold a request, raised to one page if asked |
| BuddyAllocator.LargestFittingOrd | k-alloc.cc:38-50 | the order of the largest power of two that fits a remaining size |
| BuddyAllocator.BuddyAllocator.InitKalloc | k-alloc.cc:84-119 | establishes the invariant, with exactly the available pages managed and all of them free; each root block is the largest that fits from its start to the end of its range, and each free list is in ascending order |
| BuddyAllocator.BuddyAllocator.AddRange | k-alloc.cc:88-114 | carves one available range into root blocks without a gap or an overlap, each the largest power of two that fits what is left, and touches no other page |
| BuddySteps.SplitHole | k-alloc.cc:390-411 | freeing the right half of a block under way keeps the invariant around its left half |
| BuddySteps.MergeHole | k-alloc.cc:598-686 | taking in the free buddy keeps the invariant around a block of the next order |
| BuddySteps.CloseFree | k-alloc.cc:598-686 | listing a block whose buddy is not free restores the invariant |
| BuddyAllocator.BuddyAllocator.BuddyToTheLeft | k-alloc.cc:491-502 | true exactly for the right half of a pair, relative to the root block |
| BuddyAllocator.BuddyAllocator.TakeOrder | k-alloc.cc:375-435 | takes the block at the front of the first list, from the order upward, that has one, keeping its left part, and fails exactly if there is none |
| BuddyAllocator.BuddyAllocator.Kalloc | k-alloc.cc:363-463 | keeps the invariant; null exactly if no free block fits; otherwise one free aligned region becomes a live block of the least order that holds the request, at the start of the best-fitting free block, and nothing else changes |
| BuddyAllocator.BuddyAllocator.Coalesce | k-alloc.cc:598-686 | ends with the invariant, no two free buddies left, and the block last on its free list |
| BuddyAllocator.BuddyAllocator.Kfree | k-alloc.cc:573-686 | keeps the invariant; exactly the block's pages become free, exactly that block stops being live, and what it has been merged into is last on its free list |
| BuddyTheory.WholeFree | k-alloc.cc:598-686 | coalescing is maximal: an aligned region whose pages are all free lies in one free block |
| BuddyTheory.FreeBlocksAreCanonical | k-alloc.cc:376-463 | two states with the same roots and the same free pages have the same free blocks, whatever calls led to them |
| BuddyTheory.LiveDisjoint | k-alloc.cc:448-463 | live blocks are pairwise disjoint and none of their pages is free |
| BuddyTheory.TakenIsLive | k-alloc.cc:448-463 | every managed page that is not free belongs to a live block |
| BuddyTheory.LiveDeterminesFree | k-alloc.cc:573-686 | states with the same live blocks have the same free blocks |
| BuddyTheory.FitsIffRegionFree | k-alloc.cc:381-446 | some free block is large enough exactly if some aligned region of that size is free |
| BuddyTheory.AllFreeIsRoots | k-alloc.cc:598-686 | when everything is free, the lists hold exactly the root blocks |
| BuddyRuns.KfreeUndoesKalloc | k-alloc.cc:376-463 | releasing a block just allocated restores the former set of free blocks |
| BuddyRuns.KallocThenKfree | k-alloc.cc:573-686 | the same, for the two calls |
| BuddyRuns.Run | k-alloc.cc:573-686 | any sequence of allocations and releases keeps the invariant and the roots; the live blocks are those outstanding; with none outstanding the lists are as at the start |
| BuddyRuns.NothingLiveAtStart | k-alloc.cc:84-119 | nothing is live before the first request |
| BuddyRuns.RunFromStart | k-alloc.cc:84-119 | the same from `init_kalloc` on: exactly the available pages are managed throughout, root blocks stay the largest that fit, and releasing everything rebuilds them |
| BuddyRuns.FreshFits | k-alloc.cc:84-119 | with nothing allocated, a block can be had exactly if some available range is as large |
| BuddyRuns.FirstKalloc | k-alloc.cc:84-119 | the first request after `init_kalloc` is met exactly if its block fits an available range |
| JournalFormat.RegionIsCounted | journalreplayer.cc:115-117 | counting from one boundary to the other, around 2^16 if need be, meets exactly the ids that the signed comparisons select |
| JournalFormat.RegionIffOrdered | journalreplayer.cc:79-82 | counting and comparing agree on every id exactly if the boundaries are in order, which is why the analysis rejects any others before it counts |
| JournalReplayer.JournalReplayer.AnalyzeBlockReference | journalreplayer.cc:204-223 | flags the metablock exactly if the referenced block is no good, rejects a reference that goes around, and counts journaled references, also for references read behind the end of the block |
| JournalReplayer.JournalReplayer.AnalyzeBlock | journalreplayer.cc:147-198 | one more block analyzed: a good metablock is inserted in sequence order, a bad one is flagged, nothing else changes; also if it claims more references than it can hold |
| JournalReplayer.JournalReplayer.AnalyzeBlocks | journalreplayer.cc:41-48 | the accepted metablocks are the potential ones that were not flagged, sorted; which they are is a function of the journal |
| JournalReplayer.JournalReplayer.CheckMetablocks | journalreplayer.cc:52-104 | accepts exactly if every check between neighbours and on each metablock holds |
| JournalReplayer.JournalReplayer.AnalyzeTid | journalreplayer.cc:228-281 | accepts exactly if every metablock is where the transaction allows it and the transaction commits |
| JournalReplayer.JournalReplayer.CheckTransactions | journalreplayer.cc:106-117 | checks exactly the transactions between the boundaries |
| JournalReplayer.JournalReplayer.MarkOverwrittenBlock | journalreplayer.cc:294-309 | flags every earlier reference to the block and nothing else |
| JournalReplayer.JournalReplayer.MarkAll | journalreplayer.cc:119-128 | flags exactly the references whose destination a later counted reference repeats |
| JournalReplayer.JournalReplayer.Analyze | journalreplayer.cc:33-130 | accepts exactly the acceptable journals, and leaves them marked |
| JournalReplayer.JournalReplayer.Run | journalreplayer.cc:315-344 | hands over, in order, the data of the references of the region that are neither flagged nor non-journaled, restoring escaped blocks |
| JournalChecks.StrictlyIncreasing | journalreplayer.cc:59-66 | sequence numbers of accepted metablocks increase strictly |
| JournalChecks.TxnOkIffShaped | journalreplayer.cc:228-281 | the scan accepts exactly the transactions that start once, have no gap up to their first commit, add no data after it and are not complete |
| JournalChecks.AcceptableMeans | journalreplayer.cc:52-117 | a journal is accepted exactly if it has metablocks, strictly ordered, with boundaries that never go back from one to the next, are in order on each, and lie above what it adds, commits or completes, and every transaction between the final two has that shape |
| JournalAnalysis.DataNotMeta | journalreplayer.cc:204-223 | no data block of an accepted metablock is itself accepted |
| JournalAnalysis.DataDisjoint | journalreplayer.cc:147-223 | the data blocks of accepted metablocks are pairwise distinct, also around the end of the journal |
| JournalAnalysis.DataIntact | journalreplayer.cc:147-223 | a data block is as loaded exactly if it did not look like a metablock without the error flag |
| JournalReplay.ReplayRefines | journalreplayer.cc:283-344 | the marked journal writes each destination at most once, with the effect of plain replay |
| JournalReplay.MarkedWrites | journalreplayer.cc:283-309 | the references left unflagged are those with the last word on their destination |
| JournalRuns.Replay | journalreplayer.cc:33-344 | analysis then replay: an accepted journal is written once to each destination, leaving what plain replay of the analyzed journal would leave; analysis and writes are functions of the journal |
| JournalRuns.ReplayAfterPartialReplay | build/chickadeefsck.cc:457-485 | any of a list of writes made first make no difference once all are made; that a second replay has the same list is `JournalRecovery.Recover` |
| JournalRecovery.OneOutcome | journalreplayer.cc:33-344 | a journal has one outcome: acceptance, analyzed journal and writes do not depend on anything else |
| JournalRecovery.JournalKept | build/chickadeefsck.cc:457-485 | writes outside the journal's own blocks leave it on the disk as it is |
| JournalRecovery.Recover | build/chickadeefsck.cc:457-485 | if no destination lies in the journal's own blocks, recovery that is cut short any number of times, each after any number of writes, and started over from the disk ends with the disk as one replay leaves it, and with the journal intact |
| JournalLoaded.SameReplay | journalreplayer.cc:315-344 | two journals with the same metablocks have the same replay exactly if the data of their final references agree |
| JournalLoaded.LoadedReplay | journalreplayer.cc:147-223 | plain replay of the analyzed journal is that of the journal as loaded, exactly if no data block of a final reference looks like an unflagged metablock |
| JournalLoaded.FlaggedDataIsReplayed | journalreplayer.cc:204-223 | a stale block whose checksum notices the flag makes such a journal: the flag is written to the disk |
| JournalLayout.Layout | chickadeefs.hh:115-132 | where each field of a block is among its 4096 bytes, little-endian, and which of them the checksum of a metablock covers |
| JournalLayout.BlockRoundTrip | chickadeefs.hh:115-132 | decoding the bytes of a block gives the block back |
| JournalLayout.BytesRoundTrip | chickadeefs.hh:115-132 | any 4096 bytes are those of the block they decode to |
| JournalLayout.DamageNoticed | journalreplayer.cc:136-145 | a block with one damaged byte has another checksum than before; as a metablock, if the byte is covered |
| JournalChecksum.FlagChangesSum | journalreplayer.cc:136-145 | CRC32C over the bytes of a block notices the error flag |
| JournalChecksum.UnmarkedIsStale | journalreplayer.cc:136-145 | every block with the magic number, its checksum and no flags or references is such a stale block |
| JournalChecksum.StaleExists | journalreplayer.cc:136-145 | there is one |
| JournalChecksum.FlaggedDataIsReplayed | journalreplayer.cc:204-223 | so, with CRC32C, there is a journal that is accepted and not replayed as it was loaded |
| JournalMeaning.DeltaCounts | journalreplayer.cc:321-340 | data blocks follow their metablock, one for each reference that has one |
| JournalMeaning.AnalysisMeans | journalreplayer.cc:133-223 | a block is accepted exactly if, when its turn comes, it has the magic number and its checksum, is marked as a metablock and not as bad, claims at most 339 references, and every data block has the checksum recorded for it and does not look like a metablock; then all this holds at the end; a block is flagged exactly if it looks like a metablock and is not accepted |
| JournalMeaning.TransactionFlags | journalreplayer.cc:246-253 | a metablock commits or completes a transaction by its flag, or by a boundary less than half-way around past the id |
| JournalMeaning.ReachMeans | journalreplayer.cc:209-212 | what is demanded besides: nothing that looks like a metablock claims a data block as far on as the journal is long |
| JournalMeaning.ReplayMeans | journalreplayer.cc:315-344 | the disk after replay, block by block and field by field: the data of the last reference for it, with the magic number put back if it was escaped, or else what was there |
| JournalMeaning.WritesMean | journalreplayer.cc:315-344 | the writes are those of the last references that have data, with their transactions, and no others |
| JournalMeaning.EscapeRoundTrip | journalreplayer.cc:331-334 | a block journaled, escaped if it begins with the magic number, is on the disk as it was, and does not look like a metablock in the journal |
| FutexMutex.Safety | u-lib.cc:108-135 | in every state of every run there is at most one owner, the word tells whether there is one, and while a thread sleeps the word is 2 or somebody will still wake a sleeper or set it to 2 |
| FutexMutex.LastOneAwake | kernel.cc:2918-2947 | nobody sleeps once every other thread is out |
| FutexMutex.SleeperHasCompany | k-wait.hh:107-132 | while a thread sleeps another is inside and can step |
| FutexMutex.CanFinish | u-lib.cc:108-135 | no deadlock: from every reachable state all threads inside can finish without a further call of `lock` |
| FutexHandover.Uncontended | u-lib.cc:108-135 | by itself, a thread takes the free mutex with one compare-exchange and gives it back with one decrement, and everything is as before |
| FutexHandover.SpinTakes | u-lib.cc:110-116 | a spinning thread takes the mutex as soon as it finds it free |
| FutexHandover.Contended | u-lib.cc:108-127 | on a taken mutex a thread tries 40 times, sets the word to 2 and falls asleep, last on the wait queue, and affects nobody else |
| FutexHandover.SleeperStays | k-wait.hh:107-132 | a sleeper on the wait queue cannot go on by itself |
| FutexHandover.UnlockWakesOne | u-lib.cc:130-135 | unlocking a mutex that others wait for frees it and makes exactly the first one on the wait queue runnable |
| FutexHandover.WokenTakes | kernel.cc:2918-2937 | a sleeper woken to a free mutex takes it, leaves the word at 2 for those still asleep, and gives its reference back |
| FutexHandover.HandOver | u-lib.cc:108-135 | when the owner unlocks, the thread that has slept longest can own the mutex next, with the others still asleep behind it |
| FutexHandover.TickWakes | k-futex.cc:83-88 | the timer makes every sleeper runnable and changes nothing else |
| FutexFairness.SomebodyLeaves | u-lib.cc:108-135 | in every weakly fair run without new calls, as long as somebody is inside somebody leaves |
| FutexFairness.FairRunsEnd | u-lib.cc:108-135 | every weakly fair run without new calls ends with all threads out, the word 0, nobody queued and the futex state gone, even if compare-exchanges and allocations fail at will |
| SchedulerRuns.NeverLost | kernel.hh:706-719 | a runnable process is current on its home CPU, on that run queue, or about to be enqueued there |
| SchedulerRuns.NeverDuplicated | k-cpu.cc:66-72 | it is nowhere else, once on the queue, and never both queued and current, so the scheduler's assertion holds |
| SchedulerRuns.NoMissedWakeup | k-wait.hh:140-176 | a process descheduled as blocked has found its condition false, is on the wait queue or being taken off it, and its condition is still false unless a waker has yet to come |
| SchedulerWaits.ReadyChanges | k-wait.hh:134-156 | a condition is brought about by a signaller only and done away with by a process whose wait is over only, each with its lock |
| SchedulerWaits.ReturnsReady | k-wait.hh:134-156 | in every state of every run, a process whose wait has ended has the condition's lock, and the condition holds |
| SchedulerWaits.WaitPasses | k-wait.hh:140-156 | by itself, a wait for a condition that holds passes at once, with the lock held meanwhile, and leaves everything but the condition as it was |
| SchedulerWaits.WaitSleeps | k-wait.hh:140-156 | a wait for a condition that does not hold ends with the process blocked, last on the wait queue, without locks, unable to go on, and its CPU looking for another |
| SchedulerWaits.SignalSets | k-wait.hh:169-176 | a signaller brings the condition about under its lock and is then bound to wake the waiters |
| SchedulerWaits.WakesAll | k-wait.hh:169-176 | going through a wait queue wakes everybody on it and nobody else, and puts them at the end of their home CPUs' run queues in the order in which they waited |
| SchedulerWaits.HomesSpread | kernel.hh:713-716 | of as many successive processes as there are CPUs, without the first process, each CPU is home to exactly one |
| SchedulerFairness.Empties | k-wait.hh:169-176 | in a fair run, whoever has a wait queue's lock to wake its waiters empties the queue and gives the lock up |
| SchedulerFairness.WakerArrives | k-wait.hh:169-176 | a waker that is due gets that lock, and once it is through nobody is blocked on the condition |
| SchedulerFairness.ReadyIsWoken | k-wait.hh:140-176 | a process descheduled as blocked whose condition has come about is made runnable, and is then on its home CPU, on its run queue, or about to be enqueued |
| SchedulerRuns.QueueStep | k-cpu.cc:111-130 | a step takes at most the front of a run queue, makes it current, and moves the others on by one place |
| SchedulerRuns.TurnComes | k-cpu.cc:111-130 | run queues are first come, first served: by the time more have been taken off than stand before a process, it has become current |
| SchedulerTurns.YieldGivesWay | k-cpu.cc:111-130 | after a yield or a preemption with others queued, the CPU next runs the process that was at the front, the others have moved up, and the one that gave way, if runnable, stands behind them |
| SchedulerTurns.EveryTurnComes | k-cpu.cc:111-130 | with a timer, every queued process runs in the end |
| PageTable.GoSameBlock | k-vmiter.cc:45-61 | addresses in the block where a walk stops have the same walk |
| PageTable.SameEntrySameBlock | k-vmiter.cc:28-43 | walks that stop at the same entry are in the same block |
| PageTable.SetChangesOneBlock | k-vmiter.cc:100-104 | writing the entry where a walk stops changes the mappings of that block and no others |
| PageTable.AddChangesNothing | k-vmiter.cc:88-98 | adding an empty table below an absent entry changes no mapping |
| PageMeaning.PaOffsets | k-vmiter.hh:167-177 | the physical address of every byte of a block: the page its entry names, without the lowest bit for a large page, and the offset in the block |
| PageMeaning.PaDistance | k-vmiter.hh:167-177 | in a block, physical addresses are as far apart as virtual ones |
| PageMeaning.SomewhereMeans | k-vmiter.cc:45-61 | a walk goes into the tables exactly if the address has its bits from 47 up alike |
| PageMeaning.PermMeans | k-vmiter.cc:28-43 | an address can be used, written or reached by user code exactly if every entry on its way, tables included, is present and allows it |
| PageMeaning.OtherBits | k-vmiter.hh:186-191 | the other permission bits are those of the last entry |
| Vmiter.Vmiter.constructor | k-vmiter.hh:151-154 | a new iterator agrees with a walk from the root |
| Vmiter.Vmiter.Down | k-vmiter.cc:28-43 | comes to the entry, level and permissions of the walk it continues, unless that entry makes it panic |
| Vmiter.Vmiter.RealFind | k-vmiter.cc:45-61 | after any move, incremental or not, the iterator agrees with a walk from the root |
| Vmiter.Vmiter.Next | k-vmiter.cc:63-69 | moves to the end of the block where the walk stops if that block is a large one with nothing in it, and to the next page otherwise, without passing over a present page |
| Vmiter.Vmiter.NextRange | k-vmiter.hh:217-219 | moves to the end of the current block |
| Vmiter.Vmiter.GetPerm | k-vmiter.hh:186-191 | the permissions of the address: those of its entry restricted by all tables above |
| Vmiter.Vmiter.GetPa | k-vmiter.hh:167-177 | the physical address it is mapped to, large pages included |
| Vmiter.Vmiter.TryMap | k-vmiter.cc:71-105 | on success every byte of the page is mapped to the same byte of exactly the target with exactly the permissions, and every other page is as before; fails exactly if the tables needed outnumber the free pages, and then changes no mapping; a later descent to the page panics exactly if the target is at or above 4 GiB |
| Vmiter.Vmiter.KfreePage | k-vmiter.hh:230-236 | frees the mapped page, if any, and clears that block only |
| VmiterClients.Unmap | k-vmiter.cc:71-105 | `try_map(0, 0)` leaves the address unmapped exactly if it was not inside a large page |
| VmiterClients.LargePageExample | k-vmiter.cc:100-104 | there are addresses inside large pages, where it does not |
| VmiterClients.FreeUserPages | kernel.cc:1020-1032 | frees every user page below the limit except the console, each once, and no other |
| PtPositions.BelowIsBefore | k-vmiter.cc:115-145 | in the order of the iteration, a table comes after everything below it |
| PtPositions.Nested | k-vmiter.cc:127-142 | the blocks of two tables overlap only if one is inside the other |
| PtIter.PtIter.constructor | k-vmiter.cc:108-113 | stands at the first table page |
| PtIter.PtIter.Down | k-vmiter.cc:115-145 | finds, restarting at the root without a stack, the first table after a position, and terminates |
| PtIter.PtIter.Next | k-vmiter.hh:260-262 | moves to the first table after the current one, also if that was freed |
| PtIter.PtIter.KfreePtp | k-vmiter.hh:279-282 | gives back the current table page and clears its entry, keeping the iterator's place |
| PtRemoval.RemoveAt | k-vmiter.hh:279-282 | clearing a table's entry takes away the tables at and below it and no others |
| PtRemoval.ChildUnique | k-vmiter.cc:118-125 | no table page is at two positions |
| PtFree.FreeTables | kernel.cc:1035-1040 | the loop frees exactly the table pages of the lower half, in order, and the others stay |
| PtFree.FreedOnce | kernel.cc:1035-1040 | no page is freed twice |
| PtFree.ChildrenFirst | kernel.cc:1035-1040 | a table is freed before the tables above it |
| Crc32c.Crc32c | crc32c.cc:171-195 | the sliced computation, at any alignment and length, is the bit-at-a-time CRC32C of section 12.1 of RFC 3720 |
| Crc32c.TestVector | crc32c.cc:4-169 | the checksum that section B.4 of RFC 3720 gives for 32 incrementing bytes |
| Crc32c.ByteIsEightBits | crc32c.cc:176-178 | a byte entered at once has the effect of its eight bits |
| Crc32c.LookupShifts | crc32c.cc:183-186 | table `k` shifts a byte out over `k + 1` bytes |
| Crc32c.SliceIsFourBytes | crc32c.cc:181-187 | four lookups on a word have the effect of its four bytes |
| Crc32c.ChangedByte | crc32c.cc:171-195 | messages that differ in one byte have different checksums |
| Crc32c.CrcAppend | crc32c.cc:171-195 | a checksum can be continued: `crc32c(crc32c(c, a), b)` is that of `a` followed by `b` |
| MemRanges.AssignedCanonical | k-memrange.hh:291-345 | an assignment keeps ranges strictly increasing, neighbours distinct and the limit fixed |
| MemRanges.AssignedTypes | k-memrange.hh:291-345 | it changes the types inside the range to the new one and no others |
| MemRanges.MemRangeSet.Type | k-memrange.hh:268-279 | the type of the range that an address is in |
| MemRanges.MemRangeSet.Split | k-memrange.hh:282-288 | inserts one boundary, shifting the rest |
| MemRanges.MemRangeSet.Set | k-memrange.hh:291-345 | on success a pointwise update in canonical form; refused, with nothing changed, exactly if the ranges and the cuts needed outnumber the capacity |
| MemRanges.AssignedSize | k-memrange.hh:291-345 | how many ranges an assignment leaves |
| MemRanges.BoundsUnique | k-memrange.hh:291-345 | the bounds of an assignment, merged with equal neighbours, are the only ones |
| MemRanges.CutsMean | k-memrange.hh:291-345 | an assignment cuts at those of its bounds that are no starts yet, except that a start between them can be moved to the right one |
| MemRanges.SpuriousRefusal | k-memrange.hh:291-345 | a refused assignment would have left a list that fits, exactly if enough ranges lie inside it |
| MemRanges.RefusalExample | k-memrange.hh:291-345 | a set and an assignment for which that happens |
| FileIter.FlatAt | k-chkfsiter.hh:101-116 | block `b` of the flat list, from the extent it is in |
| FileIter.FileIter.constructor | k-chkfsiter.hh:81-87 | stands at the given offset, or where an indirect block could not be loaded |
| FileIter.FileIter.Find | k-chkfsiter.cc:6-54 | from any position, comes to entry `off / blocksize` of the flat block list, or to the end, or to an indirect block that cannot be loaded |
| FileIter.FileIter.Next | k-chkfsiter.cc:57-63 | moves to the next block that is present, or to an indirect block that cannot be loaded, passing over holes only; past the end it does nothing |
| FileIter.FlatAdd | k-chkfsiter.cc:118-144 | filling the first unused extent appends its blocks |
| FileIter.FlatGrow | k-chkfsiter.cc:73-86 | growing the last extent appends blocks, unless it is a hole |
| FileIter.FlatGrowAt | k-chkfsiter.cc:73-86 | growing an extent before the last puts the blocks in behind it |
| FileIter.FileIter.Insert | k-chkfsiter.cc:66-144 | puts the blocks in where the file seems to end, whether it merges, adds a direct extent or creates the indirect block; that is the end exactly if the search was not lost at an indirect block; which error is reported, and that an error changes nothing |
| FileIter.FileIter.Append | k-chkfsiter.cc:66-144 | from the end of the file, appends exactly the extent asked for, if and only if no hole is continued |
| FileIter.LostExample | k-chkfsiter.cc:36-49 | a file whose indirect block is not loaded, and an extent that lands in its middle |
| FileIter.AppendedAsAsked | k-chkfsiter.cc:75-86 | continuing a hole never appends the blocks asked for, and nothing else fails |
| FileIter.HoleExample | k-chkfsiter.cc:75-86 | a file and an extent for which it fails |
| FreeBlocks.BitsetView.FindLsb | lib.hh:592-602 | the word-level scan finds what a bit-by-bit scan would, for every start and bound |
| FreeBlocks.BitsetView.FindLsz | lib.hh:604-615 | the same for clear bits |
| FreeBlocks.BitsetView.SetBit | lib.hh:555-591 | changes one bit |
| FreeBlocks.FindFreeRange | k-chkfs.cc:1546-1566 | the least start of a free run, or none exactly if there is none |
| FreeBlocks.AllocateExtent | k-chkfs.cc:1597-1635 | first fit: takes exactly that run, or reports why not and changes nothing |
| FreeBlocks.FreeExtent | k-chkfs.cc:1571-1587 | frees exactly the run |
| FreeBlocks.AllocateThenFree | k-chkfs.cc:1571-1635 | restores the bitmap |
| PipeRing.Ring.Write | k-vfs.cc:265-311 | appends what fits to the ring's contents, or reports a full or broken pipe |
| PipeRing.Ring.Read | k-vfs.cc:313-355 | takes what is asked for off the front, or reports an empty or ended pipe |
| PipeRing.WriteOutcome | k-vfs.cc:265-311 | a write is broken exactly if nobody can read, blocked exactly if there is something to write and no room, and otherwise takes all there is room for |
| PipeRing.ReadOutcome | k-vfs.cc:313-355 | a read is at the end exactly if the pipe is drained and nobody can write, blocked exactly if it asks something of an empty pipe, and otherwise takes what is asked for or all there is |
| PipeRing.StepKeepsStream | k-vfs.cc:265-355 | bytes are neither lost nor duplicated nor reordered |
| PipeRing.RunKeepsStream | k-vfs.cc:265-355 | over any interleaving, what was read followed by the contents is what was written |
| PipeRing.Run | k-vfs.cc:265-355 | the same for the ring's own methods, in any order |
| PipeRing.EndOfFile | k-vfs.cc:320-336 | a read reports the end exactly if the write end is closed and everything was read |
| FdTables.ClearedValid | k-vfs.cc:378-416 | releasing a slot keeps every reference count equal to the number of slots, closing the end with the last |
| FdTables.SharedValid | kernel.cc:1812-1817 | so does one more reference |
| FdTables.InstalledValid | kernel.cc:1827-1903 | so does a new pipe |
| FdTables.WriterHeld | k-vfs.cc:378-403 | the write end is open exactly as long as some slot holds it |
| FdTables.EofIffNoWriter | k-vfs.cc:320-336 | a read reports the end exactly if the pipe is drained and no slot holds its write end |
| FdTables.System.Release | k-vfs.cc:378-416 | drops a reference, and with the last one the vnode, its end, and the pipe if that was its second end |
| FdTables.System.MakePipe | kernel.cc:1827-1903 | the first two free slots get the ends of a new pipe, the first for reading and the second for writing, or there were not two |
| FdTables.TablesDetermine | k-vfs.cc:378-416 | if no vnode or pipe is new and the bytes in pipes stay, the tables determine the reference counts, the open ends and the pipes that are left |
| FdTables.System.Close | kernel.cc:1992-2021 | releases and clears the slot if it is open; every pipe that is left keeps its bytes |
| FdTables.System.Dup2 | kernel.cc:1781-1822 | the new slot holds what the old one does, whatever it held before; every pipe that is left keeps its bytes |
| FdTables.System.Fork | kernel.cc:736-744 | the child has a copy of the table, and the counts follow |
| FdTables.System.Exit | kernel.cc:1106-1114 | clears every slot; every pipe that is left keeps its bytes |
| FdTables.System.ReadFd | kernel.cc:1909-1946 | reads through a descriptor; the end is reported exactly if no process holds the write end and the pipe is drained |
| FdTables.System.WriteFd | kernel.cc:1949-1986 | writes through a descriptor |
| FdRuns.StepKeeps | k-vfs.cc:265-403 | every step of a descriptor call keeps the counts and, for every pipe, the stream |
| FdRuns.EofIffAllRead | k-vfs.cc:320-336 | over whole runs of any processes: what was read followed by the ring is what was written, and the end is reported exactly if all was read and no process holds the write end |
| FdRuns.PipeCarries | kernel.cc:1827-1986 | what is written to the second descriptor of a new pipe comes out of the first |
| FdRuns.Run | kernel.cc:1781-2021 | any sequence of whole calls of any processes: what was read from a pipe followed by the ring is what was written to it, and an end of file once reported is final, since all that is ever written had been read |
| LinkedList.ErasedRing | k-list.hh:88-93 | erasing an entry leaves the ring of the others, linked both ways |
| LinkedList.InsertedRing | k-list.hh:95-102 | inserting before an entry leaves a ring with the new entry in its place |
| LinkedList.SwappedRing | k-list.hh:181-192 | swapping exchanges the two rings, also if either or both lists are empty |
| LinkedList.OtherKept | k-list.hh:88-102 | a list that shares nothing with what an operation touches is as it was |
| LinkedList.Memory.PushFront | k-list.hh:143-145 | puts the entry first |
| LinkedList.Memory.PushBack | k-list.hh:157-159 | puts the entry last |
| LinkedList.Memory.PopFront | k-list.hh:148-154 | takes the first entry off, or reports an empty list |
| LinkedList.Memory.PopBack | k-list.hh:162-168 | takes the last entry off, or reports an empty list |
| LinkedList.Memory.Next | k-list.hh:131-134 | the entry after another, or none |
| LinkedList.Memory.Swap | k-list.hh:181-192 | exchanges the entries of two lists and touches no other |
| LinkedList.Memory.Requeue | k-list.hh:148-159 | moving an entry from one list to another keeps both apart, and any third list apart and as it was |
| LinkedList.Memory.Build | k-list.hh:106-159 | a new list filled one entry after the other has those entries, in order |
| LinkedList.Memory.Insert | k-list.hh:176-178 | picks the head for any position given, so inserts at the end; with none it has nothing to insert before |
| LinkedList.InsertMissesItsPlace | k-list.hh:61-63 | which is never before the position |
| Numbers.FillNumbuf | lib.cc:280-296 | writes the shortest numeral and a terminator at the end of the buffer, and nothing before it |
| Numbers.NumbufSuffices | lib.cc:310-312 | 24 bytes are enough for every 64-bit number in base 10 and 16 |
| Numbers.ValueOfDigits | lib.cc:291-294 | the numeral of a number has its value |
| Numbers.GlyphMeans | lib.cc:281-288 | the character of a digit stands for it, and from 10 on is a letter of the case asked for |
| Numbers.DigitsUnique | lib.cc:291-294 | no other digits without a leading zero have the value of a number |
| Numbers.Strtoul | lib.cc:160-208 | sign, base prefix and longest run of digits, with its value saturated |
| Numbers.RoundTrip | lib.cc:160-208 | parsing a printed 64-bit number gives it back, in every base from 2 to 16 and either case |
| Numbers.DigitIsStandard | lib.cc:182-190 | a character is read as section 7.22.1.4 of C11 has it, exactly if it is not one of those between '9' and '0' + base |
| Numbers.NumeralSaturates | lib.cc:178-203 | a numeral is read as its value or the largest number, exactly if it has no such character or its value is out of range |
| Numbers.SmallBasesSaturate | lib.cc:178-203 | up to base 17 that is every numeral |
| Numbers.ColonIsADigit | lib.cc:182-183 | "1:" reads as 26 in base 16 |
| Numbers.ReadsForm | lib.cc:160-206 | after white space, a sign and a prefix, a numeral is read in the base the prefix or the caller says, saturated and negated by a minus sign, up to base 17 |
| Numbers.NegativeNumeral | lib.cc:200-206 | a numeral with a minus sign is read, up to base 17, as its saturated value negated |
| Numbers.OutOfRange | lib.cc:201-206 | a numeral out of range gives the largest number exactly if it has no minus sign, and otherwise 1 |
| Numbers.OutOfRangeExample | lib.cc:201-206 | "-10000000000000000" reads as 1 in base 16 |

## Left out

- The slab allocator, the canaries that classify pointers, and the sanitizer and fill patterns (k-alloc.cc:287-361,
  k-alloc.cc:470-473, k-alloc.cc:517-570): the model starts where a request reaches the buddy allocator.
- Locks around `kalloc` and `kfree`: each call is one step, as it is under `page_lock`.
- BuddyAllocator.BuddyAllocator.Kfree: what the code asserts about the pointer (page-aligned, not free, handed out) is
  required; an offending call panics.
- BuddyRuns.KfreeUndoesKalloc: restores the set of free blocks, not their order on the lists, which the code does not
  keep.
- JournalReplayer.JournalReplayer.Analyze: a metablock that claims more than 339 references is flagged, but read behind
  its end all the same; what is found there is a parameter, the same whenever the block is analyzed.
- JournalChecks.AcceptableMeans: sequence numbers are compared as plain numbers, as the code does
  (journalreplayer.cc:183), so a log that wraps around 2^16 is not in order; a transaction counts as committed only by
  its own metablocks.
- JournalRuns.Replay: a reference already flagged as overwritten when the journal is loaded does not take part.
- JournalRecovery.Recover: that no write goes to one of the journal's own blocks is required; the code does not check
  it. Blocks are written whole, one after the other. That the journal is cleared after the last of them is left out.
- FutexMutex.Safety: the futex word is one; `find` runs without the lock when a waker looks a word up, and the state it
  finds may be freed before it is woken (kernel.cc:2943, k-futex.cc:57-66), which the model takes for a wake-up of
  nobody. Checks on the word's address, exit signals and process exit are not modelled. The timer's wake-up of all
  waiters is.
- FutexFairness.FairRunsEnd: about runs in which nobody calls `lock` any more; with new calls a thread can be overtaken
  for ever, and fairness among waiters is not promised.
- FutexHandover.HandOver: about two threads by themselves; a thread that spins meanwhile can take the mutex first.
- SchedulerRuns.NoMissedWakeup: for waiting with the condition's lock held; without it, preemption between `prepare` and
  the test is not modelled. Taking an entry off the wait queue in `clear` is one step.
- SchedulerFairness.ReadyIsWoken: the runs are fair to every process that can go on again and again, spinlocks included,
  and a waker that asks for a queue lock stays on its CPU until it has it, since interrupts are off by then.
- SchedulerWaits.WakesAll: about a waker by itself; in a run, others may be queued in between.
- SchedulerTurns.EveryTurnComes: about a CPU whose scheduler goes on and whose current process is preempted, or yields,
  again and again.
- Exiting and transitional process states, the start of the idle task, and the time heap (k-wait.hh:200-577).
- Vmiter.Vmiter.TryMap: requires what the code asserts about the address, the target and the permissions. Tables form a
  tree. A walk requires that the entry where it stops does not make it panic. Permissions are the low twelve bits.
  Non-canonical addresses are mapped by no one: with permissions the code would write to a shared constant.
- `range_perm` (k-vmiter.cc:5-26): its shortcut covers only starts aligned to the containing range.
- Crc32c.LookupShifts: the tables are defined by their recurrence, not by their literal constants (crc32c.cc:4-169).
- MemRanges.MemRangeSet.Set: addresses are unbounded numbers; validation and printing of sets are left out.
- FileIter.FileIter.Insert: counts are unbounded, where the code's are 32 bits wide. If the indirect block cannot be
  loaded the code has already allocated it and keeps it. Whether blocks can be loaded is a parameter. Several indirect
  blocks are read but only the first is created, as in the code.
- FreeBlocks.FindFreeRange: a count of 0 makes the code's own assertion fail as soon as a block is free, and is required
  not to. Words are rows of 64 bits. Finding the bitmap block and writing it back are left out.
- PipeRing.Ring.Write: waiting is a result, `WriteBlocked`, after which the caller tries again. Sizes are unbounded,
  where the code casts them to 32 bits. User memory is a sequence of bytes.
- FdTables.System.Fork: allocation failures, and threads sharing a table, are left out; so are pipe allocation failures.
- FdTables.System.Dup2: reports success as 0, as the code does, where its comment promises the new descriptor.
- Vnodes other than pipe ends: standard input and output (k-proc.cc:30-43), files and the disk.
- LinkedList.Memory.Insert: with no position the code dereferences a null pointer, for which the model reports that
  nothing was done.
- Numbers.Strtoul: a lone "0x" is taken for an empty numeral, where the standard reads "0"; `strtol` and the rest of
  formatted printing are left out.
- Device drivers, networking, console, boot, ELF loading, the shell and the user programs.
