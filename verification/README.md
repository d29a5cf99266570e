# Nachos, verified in Dafny

A model, with proofs, of the hard parts of a Nachos kernel: demand paging, the file system, threads and
synchronisation, the simulated hardware's arithmetic and timing, and a networked lock server.
`dafny verify dfyconfig.toml` checks all of it.

## What is modelled

**Demand paging.** A four-entry TLB, an inverted page table, a page table per process, FIFO or random
eviction, and a swap file. `VirtualMemory` describes each step on values, `PagingKernel` is the code that
updates the tables in place, `PagingInvariant` and `PagingSteps` say what every step keeps across all of
them, and `PagingRuns` proves that what a program sees is flat memory. The same page may be dirty in the
TLB, in the inverted table, in both, or only on disk; the invariant is that a page that is dirty nowhere
has a current copy on disk. `PagingFaults` says which frame a fault takes and what it writes, `PagingProgress`
how many faults an instruction takes. One address space is modelled, whose threads may fork and switch.

**The file system.** The bitmap and the directory are files on the disk that they manage. `FileLayout`
has the encodings, `OpenFiles` the unaligned reads and writes over whole sectors, `FileSystems` the code
of headers, directories and the file system, `FileSystemSteps` what each operation does to the files, and
`FileSystemRuns` the refinement: over every run from formatting, the disk behaves as a map from name
prefixes to contents together with a count of free sectors.

**Threads and synchronisation.** `Kernel` is a transition system whose steps are the stretches that run
with interrupts off; threads, context switches and interrupt handlers interleave in any way between them.
`Synch`, `HandOffLocks` and `Schedulers` hold the code of semaphores, condition variables, locks and the
scheduler; `KernelSteps` says exactly what each step does to the scheduler and to each object, `KernelRuns` what
holds over runs. `SynchDisks` and `SynchLists` put the synchronous disk and the synchronised list on top of the
same transition system, beside arbitrary other threads.

**Hardware.** `Multiplier` is the shift-and-add multiplier over wrapping words, `DiskTiming` the seek,
rotation and track-buffer model, `Interrupts` and `InterruptSimulator` the clock with its pending
interrupts, and `ClockAccounts` when each is due and what is charged. What interrupt handlers do is a
parameter.

**The lock server.** `LockServer` and `LockServers` are the lock messages; they are proved to be the same
abstract first-come lock (`HandOffLocks`) as the kernel's lock. `Requests` and `TextStreams` are the text
format of requests, printed by clients and read by the server.

Parameters stand for what the model cannot see: the random numbers of eviction, the contents of fresh
memory and of an unformatted disk, what handlers do, and the order of events.

## What turned out otherwise

- Two page faults are not always enough for an instruction with one code page and one data page under FIFO
  replacement. If memory is full, the data page is not in it, and the code page is in the frame that is
  next to be evicted but not in the TLB, the first fault loads the TLB without moving the page in the queue, the second evicts it, and a
  third is needed. `PagingProgress.TwoFaultsUnlessCodePageNextToGo` gives the exact condition and
  `PagingWitness.ThreeFaultsHappen` a run.
- `Condition::Broadcast` reads its queue with interrupts on, so that its waiters may be signalled and others
  come in under another lock. A turn of its loop then takes a waiter off if and only if the waiters wait
  under the broadcaster's lock, and otherwise changes nothing (`KernelRuns.TurnTakesOneIff`); run without a
  break, the loop ends if and only if nobody waits or they wait under that lock (`BroadcastEndsIff`). The
  same holds among other threads as long as they leave the condition alone (`MatchedBroadcastEnds`,
  `UnmatchedBroadcastNeverEnds`); another thread that empties the queue lets the loop end.
  `KernelWitness.BroadcastSpinIsReachable` is a run from the start to a state in which a turn changes
  nothing. If every wait is made by the owner of the lock, the owner's broadcast ends whatever the others
  do (`BroadcastTerminates`).
- `CheckIfDue` stops although something is due if and only if the machine is idle and a lone timer interrupt
  is pending that is due or that the clock has just been moved on to (`Interrupts.StopsWithDueIff`). So the
  drain loop leaves something due exactly when it comes down to such a timer interrupt
  (`Interrupts.DrainKeepsInv`, and `IdleKeepsInv` for `Idle`, which also says when `Idle` halts).
  `Interrupts.LoneTimerStaysDue` is a run to it.
- Two error paths of the lock server turn a message's header round twice: creating a lock when there is no
  room (`DoCreate`) and destroying one in use (`DoDestroy`). `LockServer.RepliesGoRightIff`: every reply goes
  to the sender, or to the lock's new owner, unless the request takes one of those paths and comes from
  another mailbox number than it was sent to; the stray one then goes to the number it was sent to, on the
  client's machine. `DestroyReplyStrays` and `CreateReplyStrays` are runs from the start. The system calls
  of this kernel use mailbox 0 on both sides (`userprog/lock_syscalls.cc:19-20`), so nothing strays between
  them and the server; but a refused creation then sends its client two replies (`HowManyReplies`).

## Model

| member | source | states |
|---|---|---|
| BitMaps.BitMap.constructor | nachos-csci402/code/userprog/bitmap.cc:20-27 | a new map of any size is all clear, over words that started with anything |
| BitMaps.BitMap.Mark | nachos-csci402/code/userprog/bitmap.cc:46-51 | sets exactly one bit of the map that the packed words stand for |
| BitMaps.BitMap.Clear | nachos-csci402/code/userprog/bitmap.cc:60-65 | clears exactly one bit |
| BitMaps.BitMap.Test | nachos-csci402/code/userprog/bitmap.cc:74-83 | answers whether the bit is set |
| BitMaps.BitMap.Find | nachos-csci402/code/userprog/bitmap.cc:94-103 | returns the least clear bit and marks it, or -1 and changes nothing |
| BitMaps.BitMap.NumClear | nachos-csci402/code/userprog/bitmap.cc:111-119 | counts the clear bits |
| BitMaps.OrMaskBits | nachos-csci402/code/userprog/bitmap.cc:50 | or-ing a word with a one-bit mask sets that bit and no other |
| BitMaps.AndNotMaskBits | nachos-csci402/code/userprog/bitmap.cc:64 | and-ing with the complement of a mask clears that bit and no other |
| BitMaps.MaskTest | nachos-csci402/code/userprog/bitmap.cc:79 | and-ing with a mask is non-zero exactly when the bit is set |
| BitMaps.FindSucceedsIffClear | nachos-csci402/code/userprog/bitmap.cc:94-119 | Find fails exactly when NumClear is zero |
| BitMaps.BitsImage | nachos-csci402/code/userprog/bitmap.cc:46-83 | bit i of a map is binary digit i % 32 of word i / 32 |
| Lists.List.Append | nachos-csci402/code/threads/list.cc:76-89 | adds one entry at the end of the linked list |
| Lists.List.Prepend | nachos-csci402/code/threads/list.cc:103-115 | adds one entry at the front |
| Lists.List.IsEmpty | nachos-csci402/code/threads/list.cc:156-163 | whether the list has no entry |
| Lists.List.SortedInsert | nachos-csci402/code/threads/list.cc:180-204 | inserts before the first entry with a larger key, over the first/last pointers |
| Lists.List.SortedRemove | nachos-csci402/code/threads/list.cc:219-239 | takes the first entry off, or returns none |
| Lists.InsertSortedSplits | nachos-csci402/code/threads/list.cc:180-204 | sorted insertion splits a sorted list: keys up to the new one before it, larger keys after it |
| Lists.InsertSortedAddsOne | nachos-csci402/code/threads/list.cc:180-204 | sorted insertion adds one occurrence and loses none |
| Bytes.WordImage | nachos-csci402/code/machine/translate.cc:43-74 | the low byte of a word comes first |
| VirtualMemory.WordValueRoundTrip | nachos-csci402/code/machine/translate.cc:88-183 | a word stored and loaded again is the same signed word |
| VirtualMemory.NarrowValueRoundTrip | nachos-csci402/code/machine/translate.cc:88-183 | a stored halfword loads zero-extended and a stored byte sign-extended |
| VirtualMemory.LowPartFirst | nachos-csci402/code/machine/translate.cc:88-183 | the low part of a stored word comes first in memory, so narrower accesses at its address see it |
| PagingKernel.PagedMemory.constructor | nachos-csci402/code/userprog/addrspace.cc:120-182 | start-up leaves the tables and the page table that paging assumes |
| PagingKernel.PagedMemory.Translate | nachos-csci402/code/machine/translate.cc:200-276 | TLB translation: the same checks in the same order, setting use and dirty bits in place |
| PagingKernel.PagedMemory.HandleMemoryFull | nachos-csci402/code/userprog/exception.cc:359-389 | picks the oldest-loaded or a random victim and saves it, with the dirty bits of both tables |
| PagingKernel.PagedMemory.HandleIPTMiss | nachos-csci402/code/userprog/exception.cc:392-420 | brings a page into a free or an evicted frame |
| PagingKernel.PagedMemory.HandlePageFault | nachos-csci402/code/userprog/exception.cc:423-456 | search, miss handling and round-robin TLB load, in place |
| PagingKernel.PagedMemory.SaveState | nachos-csci402/code/userprog/addrspace.cc:246-277 | a context switch saves dirty bits and invalidates the TLB |
| PagingKernel.PagedMemory.NewPageTable | nachos-csci402/code/userprog/addrspace.cc:279-314 | eight more pages, the old entries kept |
| PagingKernel.PagedMemory.ReadMem | nachos-csci402/code/machine/translate.cc:88-129 | one attempt at a load, with its page fault served |
| PagingKernel.PagedMemory.WriteMem | nachos-csci402/code/machine/translate.cc:145-183 | one attempt at a store, with its page fault served |
| PagingKernel.PagedMemory.CopyIn | nachos-csci402/code/userprog/exception.cc:41-67 | copyin brings in what the address space holds, each byte retried at most once |
| PagingSteps.MissRefines | nachos-csci402/code/userprog/exception.cc:392-420 | eviction and loading keep the invariant across all tables and every defined byte |
| PagingSteps.FaultRefines | nachos-csci402/code/userprog/exception.cc:423-456 | a page fault keeps the invariant and every defined byte |
| PagingSteps.FlushRefines | nachos-csci402/code/userprog/addrspace.cc:246-277 | a context switch keeps the invariant and every defined byte |
| PagingSteps.GrowRefines | nachos-csci402/code/userprog/addrspace.cc:279-314 | page-table growth keeps every defined byte |
| PagingSteps.TranslateRefines | nachos-csci402/code/machine/translate.cc:200-276 | translation finds the frame of the page and marks written pages dirty |
| PagingSteps.StoreRefines | nachos-csci402/code/machine/translate.cc:145-183 | a store changes exactly the bytes that it names |
| PagingSteps.FaultIsServable | nachos-csci402/code/userprog/exception.cc:359-420 | with a swap slot left any fault on an existing page can be served |
| PagingFaults.FaultInFullMemory | nachos-csci402/code/userprog/exception.cc:359-420 | with memory full the page takes the frame loaded longest ago under FIFO and frame random otherwise; the page there is in no frame, the others stay; the swap file is written, to the first free slot, exactly when that page was dirty in the frame or the TLB |
| PagingFaults.FaultWithFrameLeft | nachos-csci402/code/userprog/exception.cc:392-420 | with a frame clear the page takes the first such frame and nothing is evicted or written |
| PagingFaults.FaultOnResidentPage | nachos-csci402/code/userprog/exception.cc:423-456 | a page in memory stays in its frame, and so do all others |
| PagingFaults.FaultBringsIn | nachos-csci402/code/userprog/exception.cc:392-420 | the bytes a page is brought in with, from swap, the executable or the frame itself, and no other frame changed |
| PagingFaults.FaultLoadsTlb | nachos-csci402/code/userprog/exception.cc:441-456 | the entry goes into the slot after the last one loaded, the displaced entry leaves its dirty bit, the others stay |
| PagingFaults.AccessOutcome | nachos-csci402/code/machine/translate.cc:200-276 | an access raises an address error exactly when not aligned, else a page fault exactly when the TLB lacks the page, else hits the frame of the page and sets use, and dirty exactly for a write |
| PagingRuns.NextTracks | nachos-csci402/code/userprog/exception.cc:359-456 | every step has on memory exactly the effect that flat memory would show |
| PagingRuns.NextExists | nachos-csci402/code/userprog/exception.cc:359-456 | no step is stuck while the page exists and a swap slot is left |
| PagingRuns.RetrySucceeds | nachos-csci402/code/userprog/exception.cc:41-67 | after a fault the retried access is translated, so the retry loop repeats once |
| PagingRuns.RunTracksFlatMemory | nachos-csci402/code/userprog/exception.cc:359-456 | over any run each address holds its last stored byte, or the executable's |
| PagingRuns.LoadReturnsLastStore | nachos-csci402/code/userprog/exception.cc:359-456 | main result: over any run of loads, stores, faults, switches and growth, under either eviction policy, each byte loaded is the last one stored there, or the executable's if none was |
| PagingProgress.TwoFaultsUnlessCodePageNextToGo | nachos-csci402/code/userprog/exception.cc:423-456 | two faults suffice for an instruction unless memory is full without its data page and its code page, not in the TLB, is in the frame next to be evicted; and only then |
| PagingProgress.AtMostThreeFaults | nachos-csci402/code/machine/mipssim.cc:92-102 | three faults always suffice, under FIFO and without a context switch in between |
| PagingProgress.JustLoadedIsSafe | nachos-csci402/code/userprog/exception.cc:359-456 | the page loaded by the latest fault is not the next victim |
| PagingWitness.ThreeFaultsHappen | nachos-csci402/code/userprog/exception.cc:359-456 | a reachable run in which one instruction faults three times |
| FileLayout.HeaderRoundTrip | nachos-csci402/code/filesys/filehdr.cc:77-94 | a header written back and fetched is the same |
| FileLayout.TableRoundTrip | nachos-csci402/code/filesys/directory.cc:63-80 | so is a directory |
| FileLayout.HeaderImage | nachos-csci402/code/filesys/filehdr.cc:77-94 | where each field of a header lies in its sector |
| FileLayout.TableImage | nachos-csci402/code/filesys/directory.cc:63-80 | where each field of each entry lies in the directory file |
| FileLayout.NamesCompareByKey | nachos-csci402/code/filesys/directory.cc:90-97 | strncmp and strncpy compare and keep nine-character prefixes |
| FileLayout.FindIndexByKey | nachos-csci402/code/filesys/directory.cc:90-97 | FindIndex finds an entry in use with that prefix exactly when there is one |
| FileLayout.ContentFrame | nachos-csci402/code/filesys/filehdr.cc:106-110 | a file's bytes depend on its own data sectors only |
| OpenFiles.OpenFile.constructor | nachos-csci402/code/filesys/openfile.cc:30-36 | opening fetches the header and starts at position 0 |
| OpenFiles.OpenFile.ReadAt | nachos-csci402/code/filesys/openfile.cc:117-145 | returns the file's bytes from the position on, as many as asked for or as are left, at any alignment |
| OpenFiles.OpenFile.WriteAt | nachos-csci402/code/filesys/openfile.cc:147-187 | every byte of the file within the request is the new one and every other the old one; says how many were written; no sector outside the range changes |
| OpenFiles.OpenFile.PartialSectors | nachos-csci402/code/filesys/openfile.cc:165-180 | reads the first and last sectors only where the write covers them in part |
| OpenFiles.OpenFile.Read | nachos-csci402/code/filesys/openfile.cc:75-81 | reads at the seek position and advances it by what was read |
| OpenFiles.OpenFile.Write | nachos-csci402/code/filesys/openfile.cc:83-89 | writes at the seek position and advances it by what was written |
| OpenFiles.WrittenIsSplice | nachos-csci402/code/filesys/openfile.cc:147-187 | writing the buffered sectors back splices the data into the file |
| OpenFiles.OtherFilesKeep | nachos-csci402/code/filesys/openfile.cc:147-187 | a file that shares no data sector with the written one keeps its bytes |
| OpenFiles.ReadBack | nachos-csci402/code/filesys/openfile.cc:117-187 | a read of the written range returns the written data |
| FileSystemSpec.AllocFromIsFresh | nachos-csci402/code/filesys/filehdr.cc:41-52 | allocated sectors are distinct, were clear, and are what is newly marked |
| FileSystemSpec.AllocFromIsFirstFit | nachos-csci402/code/filesys/filehdr.cc:41-52 | allocated sectors come in increasing order and pass over no clear one |
| FileSystemSpec.SystemFilesAt | nachos-csci402/code/filesys/filesys.cc:80-126 | where formatting puts the headers and the data of the bitmap and the directory |
| FileSystemSpec.ClearAllClears | nachos-csci402/code/filesys/filehdr.cc:61-68 | deallocation clears exactly the file's sectors |
| FileSystems.FileHeader.Allocate | nachos-csci402/code/filesys/filehdr.cc:41-52 | succeeds exactly when enough sectors are clear, and takes the first clear ones |
| FileSystems.FileHeader.Deallocate | nachos-csci402/code/filesys/filehdr.cc:61-68 | clears the data sectors, the assertion holding at each |
| FileSystems.FileHeader.FetchFrom | nachos-csci402/code/filesys/filehdr.cc:77-81 | fills the header from its sector |
| FileSystems.FileHeader.WriteBack | nachos-csci402/code/filesys/filehdr.cc:90-94 | the sector then holds the header, and no other sector changes |
| FileSystems.Directory.constructor | nachos-csci402/code/filesys/directory.cc:38-44 | a new directory has no entry in use, whatever its memory held |
| FileSystems.Directory.FindIndex | nachos-csci402/code/filesys/directory.cc:90-97 | the first entry in use with the name's prefix, or -1 |
| FileSystems.Directory.Find | nachos-csci402/code/filesys/directory.cc:108-116 | the header sector of that entry, or -1 |
| FileSystems.Directory.Add | nachos-csci402/code/filesys/directory.cc:129-143 | fills the first free entry unless the prefix is taken or none is free |
| FileSystems.Directory.Remove | nachos-csci402/code/filesys/directory.cc:153-162 | takes the entry out of use, if there is one |
| FileSystems.Directory.FetchFrom | nachos-csci402/code/filesys/directory.cc:63-67 | fills the table from the directory file |
| FileSystems.Directory.WriteBack | nachos-csci402/code/filesys/directory.cc:76-80 | writes the table over the directory file |
| FileSystems.FetchMap | nachos-csci402/code/userprog/bitmap.cc:148-152 | fills the words from the bitmap file |
| FileSystems.WriteBackMap | nachos-csci402/code/userprog/bitmap.cc:161-165 | writes the words over the bitmap file |
| FileSystems.Format | nachos-csci402/code/filesys/filesys.cc:83-126 | formatting a disk of any content leaves no files and exactly the five fixed sectors marked |
| FileSystems.FileSystem.constructor | nachos-csci402/code/filesys/filesys.cc:80-143 | starts from a formatted disk, or formats one |
| FileSystems.FileSystem.Create | nachos-csci402/code/filesys/filesys.cc:174-215 | succeeds or leaves the disk as it was, and keeps the file system's invariant |
| FileSystems.FileSystem.Open | nachos-csci402/code/filesys/filesys.cc:227-241 | opens the file that the name stands for, or returns null when there is none |
| FileSystems.FileSystem.Remove | nachos-csci402/code/filesys/filesys.cc:257-288 | frees the file's sectors and entry, and keeps the invariant |
| FileSystemSteps.CreateKeepsInv | nachos-csci402/code/filesys/filesys.cc:174-215 | sector ownership: Create keeps the bitmap equal to the disjoint sectors of all files |
| FileSystemSteps.CreateEffect | nachos-csci402/code/filesys/filesys.cc:174-215 | the new name is a file of the asked size; every other name keeps its file |
| FileSystemSteps.CreatePlaces | nachos-csci402/code/filesys/filesys.cc:174-215 | the entry is the first free one, the header the first clear sector, and the data the first clear ones besides |
| FileSystemSteps.RemovedSectorsAreMarked | nachos-csci402/code/filesys/filehdr.cc:61-68 | Deallocate's assertion never fires: every freed sector is marked and freed once |
| FileSystemSteps.RemoveKeepsInv | nachos-csci402/code/filesys/filesys.cc:257-288 | Remove keeps sector ownership |
| FileSystemSteps.RemoveEffect | nachos-csci402/code/filesys/filesys.cc:257-288 | the name is gone; every other name keeps its file |
| FileSystemSteps.CreateThenRemove | nachos-csci402/code/filesys/filesys.cc:174-288 | Create then Remove restores the bitmap, every name's file and every other file's sectors |
| FileSystemSteps.WriteEffectOnFiles | nachos-csci402/code/filesys/openfile.cc:147-187 | a write through an open file overwrites the bytes of that file that it covers and changes no other file |
| FileSystemRuns.CanCreateIff | nachos-csci402/code/filesys/filesys.cc:174-215 | Create succeeds if and only if the prefix is new, an entry is free, and 1 + ceil(size/128) sectors are |
| FileSystemRuns.NextShows | nachos-csci402/code/filesys/filesys.cc:174-288 | each operation does to the disk what it does to a map from names to contents with a count of free sectors |
| FileSystemRuns.RunShowsFiles | nachos-csci402/code/filesys/filesys.cc:80-288 | main result: over every run from formatting, the disk keeps sector ownership and shows the files of that map, with the same successes and failures, no sector lost or made up |
| HandOffLocks.GrantedInArrivalOrder | nachos-csci402/code/threads/synch.cc:119-168 | the abstract lock: those granted and then those waiting are the arrivals, once each and in order |
| HandOffLocks.OnlyOwnerMovesIt | nachos-csci402/code/threads/synch.cc:144-168 | only the owner's leaving changes the owner of a held lock |
| HandOffLocks.AcquireRefines | nachos-csci402/code/threads/synch.cc:119-142 | Acquire is an arrival at the abstract lock, and sleeps unless the caller owns it |
| HandOffLocks.ReleaseRefines | nachos-csci402/code/threads/synch.cc:144-168 | Release is a leaving, and wakes the new owner if there is one |
| HandOffLocks.Lock.Acquire | nachos-csci402/code/threads/synch.cc:119-142 | the code of Acquire up to its return or sleep |
| HandOffLocks.Lock.Release | nachos-csci402/code/threads/synch.cc:144-168 | the code of Release |
| Synch.Semaphore.P | nachos-csci402/code/threads/synch.cc:67-80 | one pass of P's loop |
| Synch.Semaphore.V | nachos-csci402/code/threads/synch.cc:90-101 | the code of V |
| Synch.Condition.Wait | nachos-csci402/code/threads/synch.cc:188-216 | the code of Wait up to its return or the release of the lock |
| Synch.Condition.Signal | nachos-csci402/code/threads/synch.cc:218-245 | the code of Signal |
| Schedulers.Scheduler.ReadyToRun | nachos-csci402/code/threads/scheduler.cc:53-60 | the thread is READY at the back of the list |
| Schedulers.Scheduler.FindNextToRun | nachos-csci402/code/threads/scheduler.cc:70-74 | takes the front of the ready list |
| Schedulers.Scheduler.Run | nachos-csci402/code/threads/scheduler.cc:90-106 | the thread is the running one |
| Schedulers.Scheduler.Fork | nachos-csci402/code/threads/thread.cc:89-101 | follows the kernel model's Fork |
| Schedulers.Scheduler.Yield | nachos-csci402/code/threads/thread.cc:176-192 | follows the model's Yield: nothing if no thread is ready |
| Schedulers.Scheduler.Sleep | nachos-csci402/code/threads/thread.cc:213-228 | follows the model: the front thread runs, or the CPU idles |
| Schedulers.Scheduler.LookAgain | nachos-csci402/code/threads/thread.cc:224-227 | one more turn of Sleep's loop after an interrupt |
| Schedulers.Scheduler.Finish | nachos-csci402/code/threads/thread.cc:145-156 | follows the model's Finish |
| KernelInvariant.StepKeepsInv | nachos-csci402/code/threads/synch.cc:67-269 | every step, by any thread or handler, keeps placement, lock, semaphore and condition invariants |
| KernelInvariant.ResumeEnabled | nachos-csci402/code/threads/thread.cc:213-228 | a thread back from Sleep can always go on |
| KernelRuns.RunKeepsInv | nachos-csci402/code/threads/synch.cc:67-269 | the invariant holds in every reachable state, for any interleaving |
| KernelRuns.ExactlyOnePlace | nachos-csci402/code/threads/thread.cc:89-228 | a live forked thread is once in exactly one of: the CPU, the ready list, one wait queue |
| KernelRuns.StepFrame | nachos-csci402/code/threads/synch.cc:67-269 | a step changes only the objects it names and the running thread's program state |
| KernelSteps.StepSchedules | nachos-csci402/code/threads/scheduler.cc:53-106 | exactly who joins the ready list at each step, who leaves the CPU, and that the thread at the front gets it, or nobody |
| KernelSteps.StepOnLock | nachos-csci402/code/threads/synch.cc:119-168 | exactly what each step does to a lock: taken if free, else queued for at the back; passed to its longest sleeper, or freed, by its owner only |
| KernelSteps.StepOnSemaphore | nachos-csci402/code/threads/synch.cc:67-101 | exactly what each step does to a semaphore: V adds one and wakes the longest sleeper, P takes one or sleeps at the back |
| KernelSteps.StepOnCondition | nachos-csci402/code/threads/synch.cc:188-269 | exactly what each step does to a condition: waiters and their lock recorded, the longest waiter taken off by a signal under it |
| KernelSteps.ReturnsUnlessAsleep | nachos-csci402/code/threads/synch.cc:67-216 | a call of P, Acquire or Wait, or its continuation, returns exactly when it does not sleep |
| KernelRuns.LockIsFifo | nachos-csci402/code/threads/synch.cc:119-168 | over every run a kernel lock is BUSY exactly when owned, sleepers imply BUSY, and it is granted in order of arrival |
| KernelRuns.MutualExclusion | nachos-csci402/code/threads/synch.cc:119-168 | at most one thread is between the return of its Acquire and its Release |
| KernelRuns.ReturnsOwning | nachos-csci402/code/threads/synch.cc:119-216 | Acquire, and a Wait that slept, return only to the owner |
| KernelRuns.SemaphoreBalance | nachos-csci402/code/threads/synch.cc:67-101 | value = initial + Vs - completed Ps >= 0, and while threads sleep the value is at most the number woken and not resumed |
| KernelRuns.WaitersShareOneLock | nachos-csci402/code/threads/synch.cc:188-245 | a condition has a lock exactly while it has waiters, and all wait under it |
| KernelRuns.WaitQueuesAndReleases | nachos-csci402/code/threads/synch.cc:188-216 | Wait queues its caller at the back and gives the lock up in one step if and only if it is given a lock and nobody waits or all wait under that lock; otherwise it changes nothing |
| KernelRuns.WaiterStaysUntilSignalled | nachos-csci402/code/threads/synch.cc:218-245 | only a signal under the waiters' lock takes one off, the longest waiting |
| KernelRuns.SignalledIsReady | nachos-csci402/code/threads/synch.cc:218-245 | the waiter taken off is ready, and will ask for the lock again |
| KernelRuns.BroadcastEnters | nachos-csci402/code/threads/synch.cc:247-269 | Broadcast enters its loop exactly when given the lock that the waiters wait under |
| KernelRuns.BroadcastTerminates | nachos-csci402/code/threads/synch.cc:247-269 | Broadcast by the lock's owner ends with nobody waiting, within a bound on its own steps, if waits are made by owners of that lock |
| KernelRuns.TurnTakesOneIff | nachos-csci402/code/threads/synch.cc:247-269 | a turn of its loop takes the longest waiter off if and only if the waiters wait under the lock it was given, and otherwise changes nothing |
| KernelRuns.BroadcastEndsIff | nachos-csci402/code/threads/synch.cc:247-269 | run without a break, its loop ends if and only if nobody waits or the waiters wait under that lock |
| KernelRuns.UnmatchedBroadcastNeverEnds | nachos-csci402/code/threads/synch.cc:247-269 | among threads that leave the condition alone, it never ends when the waiters wait under another lock |
| KernelRuns.MatchedBroadcastEnds | nachos-csci402/code/threads/synch.cc:247-269 | among such threads it ends within a bound on its own steps when they wait under its lock, owned or not |
| KernelRuns.BroadcastCanSpin | nachos-csci402/code/threads/synch.cc:247-269 | with waiters under another lock the state after a turn is the state before it |
| KernelWitness.BroadcastSpinIsReachable | nachos-csci402/code/threads/synch.cc:247-269 | a run from start-up to a state in which a turn changes nothing |
| SynchDisks.StepKeepsDiskInv | nachos-csci402/code/filesys/synchdisk.cc:72-109 | every step of any thread, the disk layer and the interrupt keeps the invariant |
| SynchDisks.NeverBusyAtRequest | nachos-csci402/code/machine/disk.cc:115-153 | the disk's assertion that no request is active never fires |
| SynchDisks.CountIsOneWhilePending | nachos-csci402/code/filesys/synchdisk.cc:72-109 | semaphore value plus active flag is 1 exactly from a request to the return from P |
| SynchDisks.ReturnsAfterCompletion | nachos-csci402/code/filesys/synchdisk.cc:72-97 | when a call returns its request has finished and was the latest, and the disk still holds what it read or wrote |
| SynchDisks.SectorsHoldLastWrite | nachos-csci402/code/filesys/synchdisk.cc:72-97 | over every run each sector holds what the latest write call to reach its request put there |
| SynchDisks.RequestsAreSerialised | nachos-csci402/code/filesys/synchdisk.cc:72-109 | over every run, told from the steps alone: requests are made one at a time, and a call returns only when its own request, the latest of all, is complete: a read with what the latest write call before it put in the sector, a write with its data there |
| SynchDisks.JobIsCall | nachos-csci402/code/filesys/synchdisk.cc:72-97 | what a thread is doing inside the disk layer is the call that it made |
| SynchLists.StepKeepsListInv | nachos-csci402/code/threads/synchlist.cc:53-82 | every step of any thread keeps the list's invariant |
| SynchLists.ListIsFifo | nachos-csci402/code/threads/synchlist.cc:53-82 | over every run, told from the steps alone: the list holds the items of the Append calls less the first ones taken off; each Append ends with its item put on, each Remove returns an item that it took off; none is null |
| SynchLists.NoConsumerForgotten | nachos-csci402/code/threads/synchlist.cc:53-82 | over every run, while a consumer waits there is a thread awake for every item on the list, to signal, test or take |
| Multiplier.AddWithCarry | nachos-csci402/code/machine/mipssim.cc:665-668 | adding with the carry found by comparison adds double words |
| Multiplier.ShiftLeft | nachos-csci402/code/machine/mipssim.cc:672-676 | the two-word shift doubles |
| Multiplier.ComplementAndAddOne | nachos-csci402/code/machine/mipssim.cc:682-687 | the double-word negation |
| Multiplier.ShiftAndAdd | nachos-csci402/code/machine/mipssim.cc:658-678 | the loop, with its early exit and arithmetic shift, multiplies two words exactly |
| Multiplier.Mult | nachos-csci402/code/machine/mipssim.cc:634-691 | hi:lo is the exact 64-bit product, signed or unsigned, for all operands |
| DiskTiming.LatencyBounds | nachos-csci402/code/machine/disk.cc:232-253 | every request takes 500 to 31999 ticks |
| DiskTiming.EndsWhenSectorHasPassed | nachos-csci402/code/machine/disk.cc:232-253 | without the buffer a request ends exactly when its sector has first passed the head after the seek |
| DiskTiming.HitIffPassedSinceLoading | nachos-csci402/code/machine/disk.cc:239-247 | the buffer serves a read if and only if the head is on the track and the sector has gone by since the buffer began to fill |
| DiskTiming.EveryRequestIsTimed | nachos-csci402/code/machine/disk.cc:115-271 | over every run of serialised requests, told from the requests: 500 ticks a track to arrive, the bounds, exactly when the buffer serves a read, and that any other request ends at the first moment its sector has passed |
| DiskTiming.StateFromRequests | nachos-csci402/code/machine/disk.cc:261-271 | the head is on the track of the latest request, and the buffer begins at the sector boundary after the head last arrived on its track |
| DiskTiming.Disk.ComputeLatency | nachos-csci402/code/machine/disk.cc:232-253 | computes that latency |
| DiskTiming.Disk.UpdateLast | nachos-csci402/code/machine/disk.cc:261-271 | the new track, and where its buffer begins |
| DiskTiming.Disk.ReadRequest | nachos-csci402/code/machine/disk.cc:115-133 | reads the sector, and the request is active until due |
| DiskTiming.Disk.WriteRequest | nachos-csci402/code/machine/disk.cc:135-153 | writes the sector, and the request is active until due |
| DiskTiming.Disk.HandleInterrupt | nachos-csci402/code/machine/disk.cc:161-166 | the disk is idle again |
| Interrupts.FiringUsesUpDue | nachos-csci402/code/machine/interrupt.cc:178-179 | each turn of the drain loop uses up a due entry, so it ends |
| Interrupts.StopsWithDueIff | nachos-csci402/code/machine/interrupt.cc:304-359 | it stops with something due if and only if the machine is idle and a lone timer interrupt is pending that is due or moved on to |
| Interrupts.DrainKeepsInv | nachos-csci402/code/machine/interrupt.cc:178-179 | it ends with something due if and only if, when idle, the handlers before the last pending entry schedule nothing and that is a due timer interrupt |
| Interrupts.IdleKeepsInv | nachos-csci402/code/machine/interrupt.cc:220-244 | Idle returns if and only if more than a lone timer interrupt is pending, and leaves something due exactly when its drain does |
| Interrupts.LoneTimerStaysDue | nachos-csci402/code/machine/interrupt.cc:220-244 | a run from start-up in which Idle halts with a timer interrupt due |
| Interrupts.TickKeepsInv | nachos-csci402/code/machine/interrupt.cc:152-189 | OneTick moves the clock on and leaves nothing due |
| Interrupts.NextKeepsInv | nachos-csci402/code/machine/interrupt.cc:116-359 | every operation keeps the invariant and never sets the clock back |
| Interrupts.RunKeepsInv | nachos-csci402/code/machine/interrupt.cc:116-359 | over every run, whatever handlers do: fired in order of time, never early, scheduled = fired + pending, total = idle + system + user |
| ClockAccounts.RunBalances | nachos-csci402/code/machine/interrupt.cc:274-287 | over every run, what has fired and what is pending are the interrupts asked for by operations and handlers, each under the time of its request plus its delay |
| ClockAccounts.RequestsAreHonoured | nachos-csci402/code/machine/interrupt.cc:274-359 | over every run each interrupt asked for, by an operation or a handler, is pending under the time of its request plus its delay, or has fired then or later |
| ClockAccounts.TickCharges | nachos-csci402/code/machine/interrupt.cc:152-189 | a tick is 10 in system mode, charged to the system, else 1, charged to the user; a switch is wanted after it exactly when it was or a handler asked |
| ClockAccounts.IdleCharges | nachos-csci402/code/machine/interrupt.cc:220-244 | idling moves the clock to the earliest interrupt and charges idle time only |
| InterruptSimulator.Interrupt.Schedule | nachos-csci402/code/machine/interrupt.cc:274-287 | a new pending entry at its time |
| InterruptSimulator.Interrupt.CheckIfDue | nachos-csci402/code/machine/interrupt.cc:304-359 | the code of CheckIfDue |
| InterruptSimulator.Interrupt.OneTick | nachos-csci402/code/machine/interrupt.cc:152-189 | the code of OneTick |
| InterruptSimulator.Interrupt.Idle | nachos-csci402/code/machine/interrupt.cc:220-244 | the code of Idle, up to the halt |
| InterruptSimulator.Interrupt.SetLevel | nachos-csci402/code/machine/interrupt.cc:116-129 | enabling interrupts ticks the clock once |
| TextStreams.IntReadsBack | nachos-csci402/code/network/nettest.cc:880-887 | a printed int, negative or not, reads back before a blank or the end |
| Requests.FillSendBuffer | nachos-csci402/code/userprog/lock_syscalls.cc:35-42 | the mail buffer holds the text and a terminator |
| Requests.RequestRoundTrip | nachos-csci402/code/userprog/lock_syscalls.cc:18-42 | the server reads every code, name and integer that the client printed and the code asks for |
| Requests.ShortRequest | nachos-csci402/code/network/nettest.cc:876-984 | a request that ends after its code reads as one for entity -1 |
| Requests.WaitRequestText | nachos-csci402/code/userprog/lock_syscalls.cc:18-42 | the text of a wait request, literally |
| Requests.SystemCallRoundTrip | nachos-csci402/code/network/nettest.cc:876-984 | a request made as the system calls make it is read as it was |
| LockServer.WaiterRoundTrip | nachos-csci402/code/network/nettest.cc:324-334 | a waiting request kept as text reads back as its client and mailbox |
| LockServer.StepStands | nachos-csci402/code/network/nettest.cc:437-552 | every lock message acts on a server lock as on the abstract lock, and tells exactly the new owner |
| LockServer.ServerLockIsFifo | nachos-csci402/code/network/nettest.cc:400-552 | over every run, until deletion: BUSY exactly while owned, only the owner's release moves it, and queued acquires are granted once each in order of arrival |
| LockServer.RepliesGoRightIff | nachos-csci402/code/network/nettest.cc:356-552 | every reply goes to the sender or the new owner, if and only if the request neither creates a lock in a full table nor destroys one in use, or its two mailbox numbers are equal; and where a stray one goes |
| LockServer.HowManyReplies | nachos-csci402/code/network/nettest.cc:356-552 | no reply exactly to a request that is queued, two exactly to one that hands a lock over or is refused for want of room |
| LockServer.ReplySays | nachos-csci402/code/network/nettest.cc:437-552 | what the first reply says, told by who owns the lock before and after and whether it is deleted |
| LockServer.ReplyComesFrom | nachos-csci402/code/network/nettest.cc:356-552 | the refusals of a creation, and the mailbox number that a reply comes from |
| LockServer.DeletedIff | nachos-csci402/code/network/nettest.cc:470-552 | a lock is deleted exactly by a Destroy when free and by its owner's release when marked, and marked exactly by a Destroy when in use |
| LockServer.BusyLockGoesAfterDestroy | nachos-csci402/code/network/nettest.cc:470-552 | over every run, a lock in use goes only by its owner's release after a Destroy |
| LockServer.DestroyReplyStrays | nachos-csci402/code/network/nettest.cc:528-552 | a run from the start after which a client's answer goes to another mailbox |
| LockServer.CreateReplyStrays | nachos-csci402/code/network/nettest.cc:400-434 | a run from the start to a full table, after which the second refusal goes to another mailbox |
| LockServer.SenderIsAnswered | nachos-csci402/code/network/nettest.cc:356-552 | a request is answered to its sender at once if and only if it does not wait for a lock and does not destroy a lock in use from another mailbox number |
| LockServer.NamesStayDistinct | nachos-csci402/code/network/nettest.cc:400-434 | over every run no two live locks share a name, and there are at most fifty |
| LockServer.CreateFindsTheLock | nachos-csci402/code/network/nettest.cc:400-434 | Create answers with the one live lock of that name, making it only if there was none |
| LockServers.Server.ValidateLockIndex | nachos-csci402/code/network/nettest.cc:240-250 | an index is good when the lock exists and is not deleted |
| LockServers.Server.CreateLock | nachos-csci402/code/network/nettest.cc:400-434 | returns the index of the undeleted lock of that name, or makes one while there is room |
| LockServers.Server.AcquireLock | nachos-csci402/code/network/nettest.cc:437-467 | the code of Acquire_server |
| LockServers.Server.ReleaseLock | nachos-csci402/code/network/nettest.cc:470-525 | the code of Release_server |
| LockServers.Server.DestroyLock | nachos-csci402/code/network/nettest.cc:528-552 | the code of DestroyLock_server |

## Left out

- Several processes at once, thread exit and process exit: the eviction code compares a frame's owner with itself, so transparency is claimed for one address space only.
- PagingKernel.PagedMemory.HandleMemoryFull: requires a free swap slot when the victim is dirty; the code frees none and stores at slot -1 when none is left.
- PagingKernel.PagedMemory.HandleIPTMiss: requires a swap slot for an eviction and a page inside the page table, which the code does not check.
- PagingKernel.PagedMemory.HandlePageFault: requires the same of the page that faulted.
- PagingKernel.PagedMemory.ReadMem: requires the same of the page that it reads.
- PagingKernel.PagedMemory.WriteMem: requires the same of the page that it writes.
- PagingKernel.PagedMemory.CopyIn: requires pages inside the page table and as many swap slots as there are bytes to copy, for the same reason.
- PagingKernel.PagedMemory.Translate: leaves out the linear page-table mode, which this kernel does not use.
- The `lastUsed` field of the page tables and the fault statistics.
- Overflow of 32-bit and 64-bit counters: `tlbCounter`, ticks, file positions and sizes are unbounded.
- A page with no disk location has no defined contents until it is written, so nothing is said about reading it before.
- `copyout`, which gives up on the first fault instead of retrying.
- FileSystems.FileHeader.Allocate: requires a size up to `MaxFileSize`; the code does not check it, and would write past the header's 30 sector numbers.
- FileSystems.FileSystem.Create: requires the same of the new file's size.
- Handles that are kept open across `Remove`, and concurrent use of the file system.
- Padding bytes of directory entries are written as zeros, where the code writes whatever was in memory; they are never read back.
- The bytes of a file's last sector beyond its length are left arbitrary by a write, as in the code.
- Lists.List.Append: does not model the `size` counter, which the code never initialises.
- First-come order among interrupts due at the same time: putting one back moves it behind its equals, so only the order of times is claimed.
- SynchDisks and SynchLists are transition systems rather than classes, because their calls sleep in the middle; the objects that they use are classes.
- InterruptSimulator.Interrupt.CheckIfDue: holds the pending list as a sequence, the linked list being proved separately in `Lists`.
- InterruptSimulator.Interrupt.OneTick: reports the context switch that a handler asks for; the switch itself is a step of `Kernel`.
- InterruptSimulator.Interrupt.SetLevel: reports that switch in the same way.
- Schedulers.Scheduler.Run: leaves out saving and restoring user registers and memory state, the stack check, and deleting the thread that finished.
- Schedulers.Scheduler.Finish: leaves out `threadToBeDestroyed`; the thread is FINISHED and in no queue.
- DiskTiming.Disk.HandleInterrupt: leaves out the call of the completion handler, which `SynchDisks` has as a step.
- Lock deletion loses the requests still waiting; the server lock's order is therefore claimed until deletion.
- The server's condition and monitor messages, and delivery of messages by the post office.
- How a text stream behaves after a failed read differs between C++ versions; a failed read is taken to leave its variable alone.
- The rest of the MIPS instruction set, COFF loading, consoles, sockets, context-switch assembly, debugging output, and the passport-office programs.
