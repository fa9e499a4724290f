# os5: models and proofs

A Dafny model of the parts of os5 whose invariants cross several functions: the
virtual memory of processes, page tables, the frame allocator, pipes, the
scheduler, the archive file system, path names, `execve`, and shared file
descriptors. `dafny verify dfyconfig.toml` checks everything.

The kernel runs with interrupts off, so the code between two `schedule()` points
is one step. What a caller cannot decide (the contents of a fresh frame, whether
a name was found) is a parameter or a ghost result.

| file | models |
|---|---|
| `Basics.dfy`, `Words.dfy` | sizes and optional values; wrap-around of `uint32_t` counters |
| `Pipes.dfy` | `kernel/fs/pipes.c`: the ring buffer and the sleep/wake protocol |
| `FrameStack.dfy` | `kernel/mem/pmm.c`: the stack of free frames that uses some of its own frames |
| `Lists.dfy`, `Scheduler.dfy` | `kernel/include/lists.h`, `kernel/proc/scheduler.c`, the dispatch step of `kernel/proc/thread.c`, on links in memory |
| `Areas.dfy`, `AreaLinks.dfy`, `Cow.dfy`, `Procmm.dfy`, `Machine.dfy` | `kernel/mem/procmm.c` and the memory side of `fork`: area lists, the links they are kept in, the copy-on-write invariant, the operations, whole runs |
| `Shrink.dfy` | `sbrk` of `kernel/syscall/sys_mem.c`, and what a negative one leaves behind |
| `Paging.dfy`, `PagingRuns.dfy`, `Tables.dfy` | `kernel/mem/vmm.c`: the recursive and the external window against the hardware walk, cloning, whole runs; the page loops of `procmm.c` on the tables themselves |
| `Execve.dfy`, `Stack.dfy` | the argument and environment vectors of `kernel/syscall/sys_process.c`, byte by byte; how far the stack they go to can grow |
| `Names.dfy`, `Tar.dfy`, `Overlay.dfy`, `Canon.dfy` | `kernel/fs/tarfs.c` and, of `kernel/fs/vfs.c`, listing, lookup and `canonicalize_path` |
| `Descriptors.dfy` | `open`, `close`, `dup`, `dup2`, `pipe`, and what `fork` and `_exit` do to descriptors |

How the parts are put together: each state-changing operation is a method of a
class and is proved against a function or relation on values; the lemmas beside
it say what that function keeps; the `Run` methods and run lemmas extend it to
every run, as a fold of those functions over the operations. The reference for
copy-on-write is `Cow.Eager`, the machine in which `fork` copies every page;
`Machine.SpecStep` runs it beside the area lists, from which it is known which
fault fills a page, grows a stack or hangs, so that only the contents of frames
not used before are left open. For page tables the references are `Paging.Walk`,
the two-level walk, and `PagingRuns.Plain`, one plain map per address space; for
the frame allocator two sequences (`FrameStack.Served`); for descriptors the
number of slots that hold each (`Descriptors.Counted`); for archives the list of
headers; for `canonicalize_path` following names from the root. What an operation
is for is said besides without its reference, in terms of the state itself: `Did` in
`Machine`, `PagingRuns` and `Descriptors`, `Pipes.Moves`, `FrameStack.Answered`, and
the postconditions of the methods; the runs carry it along.

## What the code does not promise

These are consequences of the code as it is, each with its exact condition.

- A pipe is first in, first out for ever exactly if its size divides 2^32
  (`Pipes.FifoIffSizeDividesWord`); the sizes in use do.
- A read of length 0 can fall asleep beside data (`Pipes.ZeroReadSleeps`), and no
  other can (`Pipes.SleepsBesideData`).
- A stack grows exactly where the next area above begins within a page, grows down,
  and something lies below (`Areas.GrowthIff`). Below an area that is not empty the
  kernel hangs, because the closed probe of `new_area` takes it for a collision
  (`Areas.GrowthRefused`, `Areas.ProbeRefuses`). So a stack grows by one page; below
  that a store hangs the kernel or is not served (`Stack.NoSecondGrowth`,
  `Stack.NoGrowthBelow`).
- `execve` completes exactly if both vectors, their strings and the head take a page
  or less; with more, a store hangs the kernel or is not served (`Stack.ExecStores`,
  `Stack.Exec`, `Stack.SecondGrowthHangs`).
- `new_area` keeps an area list in address order exactly under `Areas.OrderKept`
  (`Areas.OrderIff`); an empty area inside the new range can lose it
  (`Areas.OrderLost`).
- A range that ends below its start is never refused. `sbrk` makes one exactly if the
  data shrinks over a page boundary and ends where no area goes on
  (`Shrink.SbrkBackwards`). The list then stays aligned, disjoint and in order exactly
  under `Areas.BackKept`, in the usual case because the heap that ends at the start
  shrinks (`Areas.BackIff`). But no page is taken out of the page table, so the
  invariant survives exactly if, besides, none between the two ends is present
  (`Cow.NewAreaIff`), and all are (`Machine.ShrinkBreaks`). Such a page stays writable,
  in no area, and the next `fork` leaves it writable in parent and child at once:
  `Shrink.SharedAfterShrink` is a run after which the parent reads what the child wrote.
- `fork` faults inside the kernel exactly if some area may be shared, is neither
  writable nor copy-on-write nor filled on use, and is not empty, as the loader makes
  them for segments without the write bit: `new_area` maps such a copy at once, and the
  child has no directory yet (`Procmm.Kernel.ForkAreas`).
- Sharing or removing a page without a table faults (`PagingRuns.Protect`,
  `Paging.Vmm.ExpageSet`). With the areas the kernel makes itself that never happens:
  every page of every area is present (`Machine.Run`), and where that is so neither
  `fork` nor `procmm_removeall` faults on the tables (`Tables.Fork`,
  `Tables.RemovePages`).
- The kernel's own stores to user memory (`read`, `stat`) ignore read-only entries, as
  only the paging bit of CR0 is set (`kernel/boot/boot.S:77-79`), so they break no copy.
  Such a store is one step of the machine in which `fork` copies everything exactly if
  it changes nothing or no other process maps the frame (`Cow.KernelStore`).
- A kernel page whose table has to be fetched from the kernel's own directory: the
  code goes on to clear that shared table, so every other page in it disappears for
  everybody (`Paging.Vmm.PageSet`, the case `Fetched`; `PagingRuns.FetchWipes` is a
  run). The comment there only speaks of copying it.
- Setting an entry without the present bit faults exactly if the page has no table
  and none to fetch (`Paging.Vmm.PageSet`, `Paging.Vmm.ExpageSet`).
- `close` and `dup` do not check numbers above the table, nor `close` negative ones, and
  follow what lies beside the table (`Descriptors.Files.Close`, `Descriptors.Files.Dup`,
  the reply `Wild`).
- `execve` with a NULL `argv` hands over an argument count of 2^32 - 1 (`Execve.Process.Execve`).
- `canonicalize_path` follows a null pointer exactly if at some point there have been
  more ".." than names (`Canon.FaultsIff`). Without a prefix it writes one byte too
  many exactly if the path is empty, or has no slash at either end, none behind
  another, and no "." or ".." (`Canon.FitsIff`).
- An archived "." is listed but cannot be looked up, nor can an archived "..", unless
  the mount tree makes it the directory's parent (`Overlay.ListedIsFound`).
- A failed `pipe` leaves a descriptor without an inode; `dup2` onto that slot forgets
  it and leaves its count too high for ever, and that is the only way
  (`Descriptors.Files.Dup2`; `Descriptors.LeakAfterPipe` is a run).
- A frame just above the boot frames is refused by `pmm_free_page`, although its comment
  counts two pages for the setup (`FrameStack.Pmm.FreePage`).

## Model

| member | source | states |
|---|---|---|
| Machine.Run | kernel/mem/procmm.c:256-282 | copy-on-write refines copying, over every run of process start, new areas, fork, user load and store (faults handled, stack growth included), exec removal and exit: every answer, the final contents and the write rights of every process are those of the machine in which fork copies every page; which operations fill a page, grow a stack, hang or fault is decided by the state, and only contents of fresh frames are open; with the areas the kernel makes itself all their pages stay present; and memory before, between and after the operations is a chain in which each one does what it is for (`Machine.Did`: what is stored is there and read back, every other byte of every process reads as before, a child reads what its parent reads) |
| Machine.Step | kernel/mem/procmm.c:308-386 | one operation is one step of the eager machine beside the area lists it should leave, with contents given for exactly the pages that come in; and, told by lists, page tables and memory alone, it does what it is for |
| Machine.ReadBack | kernel/mem/procmm.c:308-359 | after a store that was answered, wherever a run has come to, a load there gives the stored byte, and a load of any other byte, by whatever process, what it gave before; a store to a present page the process may write is answered |
| Machine.Touch | kernel/mem/procmm.c:360-386 | the fault handler outside all areas: the plan made from the area list is carried out, be it nothing, the hang, or one more area with its pages |
| Machine.StepFull | kernel/mem/procmm.c:67-80 | no ordinary operation but a store leaves an area with a page missing |
| Machine.StoreFull | kernel/mem/procmm.c:312-358 | nor does a store, whether it splits a page out or fills one in |
| Machine.ShrinkBreaks | kernel/syscall/sys_mem.c:45-58 | where all pages are present, a range that ends below its start never keeps the invariant |
| Shrink.Sbrk | kernel/syscall/sys_mem.c:34-58 | which range sbrk passes on, modulo 2^32, and what new_area makes of it: the exact list, and whether the invariant survives |
| Shrink.SbrkBackwards | kernel/syscall/sys_mem.c:45-58 | the range ends below its start exactly if the data ends in no area and shrinks over a page boundary |
| Shrink.OrphanShared | kernel/mem/procmm.c:260-276 | a page in no area keeps its write access through a fork, in parent and child alike |
| Shrink.SharedAfterShrink | kernel/syscall/sys_mem.c:45-58 | the run: a heap of two pages, sbrk over one page down, fork, a store by the child, which the parent reads |
| Stack.NoGrowthBelow | kernel/mem/procmm.c:360-381 | where the page above the address is in an area, a growth of the stack collides or is in vain, and the kernel hangs |
| Stack.NoSecondGrowth | kernel/mem/procmm.c:360-381 | in every list, below a page the stack has grown by a store hangs the kernel or is not served |
| Stack.FirstGrowth | kernel/mem/procmm.c:360-381 | with any loaded program, the first store to the page below the placeholder of execve puts that page in its place |
| Stack.SecondGrowthHangs | kernel/mem/procmm.c:48-59 | and then any store to the page below hangs the kernel |
| Stack.ServedIff | kernel/mem/procmm.c:360-381 | a run of stores below the placeholder gets through exactly if all lie in its first page |
| Stack.ExecStores | kernel/syscall/sys_process.c:132-172 | the stores of execve all get through, and all lie in the first page, exactly if vectors, strings and head take at most a page |
| Stack.Exec | kernel/syscall/sys_process.c:78-175 | if so main gets the count, arguments and environment execve was given; if not a store hangs the kernel or is not served |
| Tables.Fork | kernel/proc/process.c:157-165 | on the tables: where all pages are present, sharing every area never faults, and after the clone parent and child map exactly what `Procmm.Kernel.Fork` says, the child in a directory there was not before |
| Tables.RemovePages | kernel/mem/procmm.c:437-457 | on the tables: where all pages are present, the removal never faults, takes the pages of all areas and changes no other directory |
| Tables.WriteProtect | kernel/mem/procmm.c:265-276 | on the tables: where the area's pages are present the loop never faults, takes their write access for this directory and changes no other |
| Tables.ClearPages | kernel/mem/procmm.c:445-453 | and so does the removal of the pages |
| Procmm.Kernel.Fork | kernel/proc/process.c:157-165 | sharing every area and then cloning the page table is, to every process, the same as copying all pages of the parent, if all areas may be shared and those that stay read-only are empty; for every list, when it faults, and the lists and page tables if it does not; then every byte the child reads is the parent's, and both may write where the parent could |
| Procmm.Kernel.ForkAreas | kernel/mem/procmm.c:409-424 | for every list: it faults exactly if an area that may be shared is not copy-on-write afterwards, not filled on use and not empty; else copies of copy-on-write areas are in the parent's rings, the others placed by new_area, and no page of a copy-on-write area stays writable |
| Procmm.Kernel.ShareArea | kernel/mem/procmm.c:256-282 | one area: flags changed, its pages write-protected if it is copy-on-write, a copy in the child's list, or the fault |
| Procmm.Kernel.FaultInside | kernel/mem/procmm.c:308-359 | a fault inside an area is handled exactly in the copy-on-write and demand cases; the first is invisible to every process and yields write access, the second adds one page |
| Procmm.Kernel.BreakCopy | kernel/mem/procmm.c:312-344 | splitting out the page and keeping or copying its frame changes what no process reads or may write, and leaves exactly the lists of `Cow.Broken` |
| Procmm.Kernel.SplitArea | kernel/mem/procmm.c:109-172 | the range is split out of the area and of every ring member, the invariant holds and nothing visible changes |
| Procmm.Kernel.GlueArea | kernel/mem/procmm.c:174-222 | joins at most one neighbour on each side, and only for an area that is alone in its ring and not copy-on-write |
| Procmm.Kernel.NewArea | kernel/mem/procmm.c:37-96 | for every range: collides exactly if it does not end below its start and a non-empty area meets the closed range; otherwise maps all its pages or none, inserts in order and glues, and the invariant survives exactly under `Cow.Kept`; no byte changes, and unless they come in on use the pages of the range are there with its write right |
| Procmm.Kernel.Probe | kernel/mem/procmm.c:48-59 | probing at page steps decides whether any non-empty area meets the closed byte range, and passes a range that ends below its start |
| Procmm.Kernel.FindIncluding | kernel/mem/procmm.c:224-237 | the first area that contains the address, or none |
| Procmm.Kernel.FindAbove | kernel/mem/procmm.c:239-254 | the area `Areas.Above` names: walking down, the first whose neighbour ends below the address; never the first of the list |
| Procmm.Kernel.GrowStack | kernel/mem/procmm.c:360-386 | the stack grows exactly if the address is above the limit and the next area begins within a page, grows down, and has one below it that ends below the address; the kernel hangs exactly if a non-empty area starts where the new one ends, and then nothing has changed; after a growth the invariant holds exactly if the list kept its order; no byte changes |
| Procmm.Kernel.Load | kernel/mem/procmm.c:345-358 | a load gives the byte its page table leads to, and the one the eager machine gives, filling in at most its own page, exactly when it may; no byte that was there changes |
| Procmm.Kernel.Store | kernel/mem/procmm.c:308-359 | a store succeeds exactly where the page is there, or may come in on use, and the area may be written; then the frame of its page holds the byte, and every other byte of every process reads as before |
| Procmm.Kernel.RemoveAll | kernel/mem/procmm.c:437-457 | the process has no areas and no pages any more, and nobody else notices |
| Procmm.Kernel.Exit | kernel/mem/procmm.c:426-435 | the process is gone, and nobody else notices |
| Cow.WritableIsPrivate | kernel/mem/procmm.c:312-344 | the frame of a writable entry is mapped by no other entry of any process |
| Cow.NotCowAlone | kernel/mem/procmm.c:181-218 | an area that is not copy-on-write is alone in its ring, so gluing may skip the test of the neighbour's ring |
| Cow.SplitKeeps | kernel/mem/procmm.c:109-172 | splitting a ring keeps the sharing invariant (equal ranges, different owners, all copy-on-write, common frames only within a ring) and every view |
| Cow.GrantKeeps | kernel/mem/procmm.c:319-341 | giving write access keeps the invariant and every view, whether the frame is kept by its last user or copied |
| Cow.ForkKeeps | kernel/mem/procmm.c:409-424 | the forked state satisfies the invariant and looks like an eager copy |
| Cow.ChildKeeps | kernel/mem/procmm.c:280-281 | the child's list, empty areas glued or not, is a list, and every address lies in it in the shared form of the parent's area, of the same range, type and ring and with all its flags but shared, write and copy-on-write (`Cow.Kin`) |
| Cow.DemandKeeps | kernel/mem/procmm.c:345-358 | a page filled in on demand keeps the invariant and appears in one process only |
| Cow.StoreKeeps | kernel/mem/procmm.c:312-344 | a store through a writable entry changes one page of one process |
| Cow.KernelStore | kernel/boot/boot.S:77-79 | a store that ignores the write bit keeps the invariant, and is a step of the eager machine exactly if it changes nothing or nobody else maps the frame |
| Cow.NewAreaKeeps | kernel/mem/procmm.c:61-95 | a new area keeps the invariant, although gluing checks only the ring of the area in hand |
| Cow.NewAreaIff | kernel/mem/procmm.c:37-96 | whatever the range, once the probe has passed: the invariant survives exactly if the list stays one and no present page loses its area; then the eager machine gains the pages and write rights of the range, or loses the rights of one run over backwards |
| Cow.EmptyKeeps | kernel/mem/procmm.c:437-457 | leaving every ring at once keeps the invariant for those who stay, as does a process that starts |
| Cow.ExitKeeps | kernel/mem/procmm.c:426-435 | the same when the process ends |
| Areas.SplitAt | kernel/mem/procmm.c:109-172 | a split leaves flags and type of every address, and says which piece holds it |
| Areas.SplitKeepsDisjoint | kernel/mem/procmm.c:124-168 | a split list stays aligned, disjoint and in address order |
| Areas.GlueEffect | kernel/mem/procmm.c:188-218 | gluing leaves flags and type of every address, and every copy-on-write area as it was |
| Areas.MergeAt | kernel/mem/procmm.c:193-218 | joining two neighbours: which area holds each address afterwards |
| Areas.InsertEffect | kernel/mem/procmm.c:82-93 | an inserted area adds exactly its addresses |
| Areas.RemoveEffect | kernel/mem/procmm.c:98-107 | a freed area takes away exactly its addresses |
| Areas.RemoveKeeps | kernel/mem/procmm.c:98-107 | what is left stays aligned, disjoint, in order, and in different rings |
| Areas.OrderIff | kernel/mem/procmm.c:82-95 | insertion and gluing keep the list in address order exactly if the area that grows is followed by nothing below the end of the range, or else nothing starts in the range but one area at its end that is absorbed |
| Areas.OrderLost | kernel/mem/procmm.c:82-95 | a list and a range for which it is lost |
| Areas.BackIff | kernel/mem/procmm.c:188-218 | a range that ends below its start leaves an aligned, disjoint, ordered list exactly if the like area that ends at its start does not end below its own start afterwards, what it absorbs on the right included, or without such an area one that begins at its end shrinks from below; else the list is not even aligned |
| Areas.BackEffect | kernel/mem/procmm.c:188-218 | then exactly the addresses from its end to its start go, all of which were used alike, and no copy-on-write area changes |
| Areas.GrowthIff | kernel/mem/procmm.c:360-379 | when a stack grows, said of the list alone |
| Areas.GrowthRefused | kernel/mem/procmm.c:48-59 | when the growth is a collision: a non-empty area starts where the new one ends |
| AreaLinks.AreaList.InsertSorted | kernel/mem/procmm.c:82-93 | on the links: the walk and the insertion leave the list the sequence operation leaves |
| AreaLinks.AreaList.Split | kernel/mem/procmm.c:121-139 | on the links: left part, middle and right part stand where the area stood |
| AreaLinks.AreaList.Free | kernel/mem/procmm.c:98-107 | on the links: the area is gone from the list and nothing else has moved |
| Areas.ProbeFindsOverlap | kernel/mem/procmm.c:48-59 | page steps find every area that shares a byte with an aligned range |
| Areas.ProbeRefuses | kernel/mem/procmm.c:48-59 | the probe refuses exactly the non-empty areas that meet the closed range, one starting at its end included |
| Paging.Vmm.PageGet | kernel/mem/vmm.c:25-34 | reading through the recursive slot gives the entry the hardware uses |
| Paging.Vmm.PageTouch | kernel/mem/vmm.c:56-97 | which slot and which table change: none, a new cleared one, or the kernel's own, which gets cleared; it faults exactly for a new table without the present bit |
| Paging.Vmm.PageSet | kernel/mem/vmm.c:99-107 | afterwards the walk of the page gives the value in the directories that use its table, and no other walk changes, but where the table was fetched from the kernel's directory; user pages change for the current directory only; a kernel page shows the value under the kernel's directory too, once the kernel runs |
| Paging.Vmm.ExdirSet | kernel/mem/vmm.c:110-127 | loads a directory in the external slot and returns the one that was there |
| Paging.Vmm.ExpageGet | kernel/mem/vmm.c:129-142 | the entry the hardware would use under the external directory |
| Paging.Vmm.ExpageTouch | kernel/mem/vmm.c:164-182 | a table for the external directory, new and cleared, or none needed |
| Paging.Vmm.ExpageSet | kernel/mem/vmm.c:184-193 | the same for the external directory, with the exact case in which it faults |
| Paging.Vmm.CopyPage | kernel/mem/vmm.c:208-224 | one frame becomes a copy of another and every other word of memory is as before, the temporary pages included |
| Paging.Vmm.NewPd | kernel/mem/vmm.c:226-247 | a fresh directory with nothing in it but itself, apart from all others |
| Paging.Vmm.CloneTable | kernel/mem/vmm.c:261-270 | one turn of the loop: a fresh table with the same words, temporary pages restored |
| Paging.Vmm.ClonePd | kernel/mem/vmm.c:249-282 | the same walk for all user pages through fresh tables, the kernel's slots shared, slot 1023 itself, and no older word changed |
| Paging.Reloaded | kernel/mem/vmm.c:110-127 | giving `vmm_exdir_set` what it returned puts the slot back |
| Paging.OneSlot | kernel/mem/vmm.c:249-282 | a table is used in one slot only, by whichever directories use it, and is no directory |
| Paging.UserPrivate | kernel/mem/vmm.c:260-270 | tables of user pages have one user |
| Paging.TouchSpaces | kernel/mem/vmm.c:64-96 | a new or fetched table keeps the directories apart |
| Paging.PutWalks | kernel/mem/vmm.c:105-105 | a word stored in a table shows at one page, in the directories that use the table |
| Paging.WindowAddress | kernel/include/vmm.h:14-17 | the addresses of the windows lead the hardware to the directory itself |
| Paging.TableAddress | kernel/include/vmm.h:14-17 | and to word v % 1024 of table v / 1024 |
| PagingRuns.SetPageIn | kernel/mem/procmm.c:70-79 | load another directory, set a user page, put the slot back: that directory's page changes and nothing else |
| PagingRuns.Run | kernel/mem/vmm.c:99-282 | over every run of setting pages here and in other spaces, cloning and switching, each space has at its user pages what its own operations put there, and every clone is a space there was not before; each operation, told by the walks of the hardware alone, changes the walk of its page in its space, adds a space with the walks of the current one, or changes the current directory and no memory |
| PagingRuns.SwitchSet | kernel/mem/vmm.c:19-23 | after a switch a set changes the walk of that page in the directory switched to, and no other walk of a user page in any directory |
| PagingRuns.Protect | kernel/mem/procmm.c:267-274 | write-protecting a page of the loaded directory takes its write bit and nothing else, and faults exactly if the page has no table |
| PagingRuns.FetchWipes | kernel/mem/vmm.c:68-96 | a run in which setting a kernel page in one space removes another page of the same table in another |
| FrameStack.Pmm.AllocPage | kernel/mem/pmm.c:18-56 | which frame is handed out: the page on top of the stack region if no entry needs it, else the top entry; nobody had it; gives up only with at most one frame left; keeps the stack bounds (`Pmm.Shape`: limits at whole pages, at most 1025 entries apart) and the boot frames out of the stack |
| FrameStack.Pmm.FreePage | kernel/mem/pmm.c:58-84 | which frames are accepted, and that an accepted one is free afterwards and nothing else changed |
| FrameStack.Pmm.Reclaim | kernel/mem/pmm.c:41-48 | the page taken from under the stack held no entry |
| FrameStack.Pmm.Grow | kernel/mem/pmm.c:71-75 | a full stack grows by the freed frame itself, within one page table |
| FrameStack.Pmm.MapStackPage | kernel/mem/vmm.c:64-107 | only the first growth calls back into the allocator, in its boot phase and without the lock |
| FrameStack.Pmm.Serve | kernel/mem/pmm.c:18-84 | over every run without double frees, each request gets the answer of the two-sequence model, the frames are the old ones and those accepted, each free or with a caller and not both, and none is handed out twice; told by sets, what is handed out was free, nothing is only when at most one frame is left, and a frame is accepted exactly if it is above the boot frames and not free |
| FrameStack.LastIn | kernel/mem/pmm.c:38-80 | a freed frame is the next one handed out, as long as no page under the stack is to spare |
| FrameStack.HandOut | kernel/mem/pmm.c:38-52 | a frame moves from entry or backing page to the caller, and the three sets stay disjoint |
| FrameStack.TakeBack | kernel/mem/pmm.c:71-79 | and back |
| FrameStack.FramesFitRegion | kernel/mem/pmm.c:13-14 | distinct frames below 2^32 never outgrow the stack region |
| FrameStack.RoomToGrow | kernel/mem/pmm.c:71-75 | whenever a frame is left to free there is room for the page it would add |
| Pipes.FifoIffSizeDividesWord | kernel/fs/pipes.c:42-91 | every interleaving of reads and writes is first in, first out exactly if the size divides 2^32 |
| Pipes.RunKeepsFifo | kernel/fs/pipes.c:42-91 | bytes read followed by bytes buffered are the bytes written, across counter wrap |
| Pipes.WrapLosesByte | kernel/fs/pipes.c:85-90 | for any other size, a run that loses a byte |
| Pipes.PutEnqueues | kernel/fs/pipes.c:85-90 | a put appends to the buffered bytes |
| Pipes.GetDequeues | kernel/fs/pipes.c:51-56 | a get takes the oldest buffered byte |
| Pipes.RunKeepsSleepInv | kernel/fs/pipes.c:57-98 | over every interleaving: at most one sleeper, a reader only on an empty buffer, a writer only on a full one, and first in, first out |
| Pipes.RunMoves | kernel/fs/pipes.c:42-100 | one more event of any run moves as many bytes as are wanted, or left, and there are, or there is room for, and nothing else; who has moved none of a read, or not all of a write, sleeps |
| Pipes.ReaderOrWriterRuns | kernel/fs/pipes.c:57-98 | a reader and a writer in progress are never both asleep |
| Pipes.SleepsBesideData | kernel/fs/pipes.c:51-64 | in any run, calls of length 0 included (a write of none does nothing), a reader asleep beside unread bytes asked for none |
| Pipes.ZeroReadSleeps | kernel/fs/pipes.c:51-64 | a run that leaves such a reader asleep |
| Pipes.Pipe.Read | kernel/fs/pipes.c:37-67 | one chunk of a read on the buffer with its counters is the chunk on the queue: it moves as many bytes as are wanted or there, and sleeps exactly if that is none; it wakes the sleepers in order; without writers it gives the end-of-file byte |
| Pipes.Pipe.Write | kernel/fs/pipes.c:68-101 | one chunk of a write: as many bytes as are left or fit, and sleeps exactly if some are left; without readers it overruns the buffer |
| Lists.Append | kernel/include/lists.h:28-32 | the ring with the item at its end |
| Lists.Remove | kernel/include/lists.h:34-38 | the ring without the item, which is alone afterwards |
| Lists.InsertLeft | kernel/include/lists.h:40-44 | the ring with the item before the link |
| Lists.InsertRight | kernel/include/lists.h:46-50 | the ring with the item behind the link |
| Lists.Empty | kernel/include/lists.h:21-22 | whether the head is alone |
| SchedulerSpec.RunKeeps | kernel/proc/scheduler.c:14-105 | in every reachable state a thread is on at most one list, once, and the running one on none |
| SchedulerSpec.StepKeeps | kernel/proc/thread.c:117-139 | each event keeps that |
| SchedulerSpec.SwitchOrder | kernel/proc/thread.c:117-139 | a switch runs the first of the queue with the thread that ran at its end, if that is ready, and leaves the rest in order; no wait list changes |
| SchedulerSpec.StaysAlive | kernel/proc/thread.c:119-124 | over every run, a ready thread that runs or is queued goes on doing one or the other until it blocks or finishes itself or is killed |
| SchedulerSpec.RunBegins | kernel/proc/scheduler.c:14-105 | at the end of any run: who starts is last in the queue, woken ones follow the queue in order, who blocks is last on the wait list and not ready, who is killed is on no list, and a tick runs the first of the queue |
| SchedulerSpec.StaysAsleep | kernel/proc/scheduler.c:77-105 | only a wake of its list, or being killed, moves a sleeper |
| SchedulerSpec.Fair | kernel/proc/thread.c:117-139 | a ready thread with k threads ahead is dispatched no later than the (k+1)-th switch |
| SchedulerSpec.StepAdvances | kernel/proc/thread.c:117-139 | every switch brings it one place nearer, and nothing sets it back |
| SchedulerSpec.CheatOvertakes | kernel/proc/scheduler.c:20-29 | a cheater runs next and everybody else stays where they were |
| SchedulerSpec.WakeOneMore | kernel/proc/scheduler.c:94-103 | one turn of the wake loop moves the next sleeper behind the run queue |
| Scheduler.RunQueues.Insert | kernel/proc/scheduler.c:14-19 | on the links: the thread is last on the run queue, and no other list changes |
| Scheduler.RunQueues.Cheat | kernel/proc/scheduler.c:20-29 | on the links: the thread is first on the run queue, and no other list changes |
| Scheduler.RunQueues.Remove | kernel/proc/scheduler.c:31-36 | on the links: the thread is on no list |
| Scheduler.RunQueues.Next | kernel/proc/scheduler.c:38-49 | the first thread, which stays where it is, or none |
| Scheduler.RunQueues.Sleep | kernel/proc/scheduler.c:77-87 | off its list, not ready, last on the wait list |
| Scheduler.RunQueues.Wake | kernel/proc/scheduler.c:89-105 | all sleepers move behind the run queue in order, ready |
| Scheduler.RunQueues.Switch | kernel/proc/thread.c:117-139 | a ready thread that ran goes to the back of the queue; the first of it runs, or the idle thread if there is none; the others keep their order, and no wait list changes |
| Execve.Process.Execve | kernel/syscall/sys_process.c:78-175 | the head of the new stack leads to vectors with the same strings, which overlap neither each other nor the head; all stores lie between head and top, and the head is not written first unless it is alone |
| Execve.LongestArgument | kernel/syscall/sys_process.c:137-172 | a single argument and an empty environment take at most a page exactly up to 4059 characters |
| Execve.Process.Save | kernel/syscall/sys_process.c:78-112 | the saved vector is what the pointer led to, and the count includes the final NULL |
| Execve.Process.Restore | kernel/syscall/sys_process.c:137-167 | vector and strings laid out below the top, one below the other, and at which address exactly: a string of n bytes takes n / 4 + 2 words |
| Execve.Process.Init | toolchain/myos/syscalls.c:21-38 | the new program reads back count, arguments and environment |
| Execve.Process.ExecveInit | kernel/syscall/sys_process.c:78-175 | the round trip, memory below the top taken as there (`Stack.Exec` says when it is): main gets the same count, arguments and environment |
| Execve.VectorUnique | toolchain/myos/syscalls.c:21-38 | memory determines what is read at a pointer, so it is the same vector |
| Execve.LaidStays | kernel/syscall/sys_process.c:140-150 | later writes leave what is laid out alone |
| Tar.TarTree.Build | kernel/fs/tarfs.c:52-79 | on every well-formed archive the walk sees exactly the headers, and the tree holds exactly their paths below the first component, each with the first header at or below it |
| Tar.PathCalled | kernel/fs/tarfs.c:20-22 | a name c/n1/../nk, with or without a slash at its end, is filed under n1/../nk whatever c is |
| Tar.TarTree.BuildLookup | kernel/fs/tarfs.c:52-79 | told by names: in an archive of entries c/n1/../nk, a path is found after the build exactly if some n1/../nk extends or equals it, and leads to the header of the first such entry in the image |
| Tar.TarTree.AddNode | kernel/fs/tarfs.c:14-50 | one more path; existing nodes keep their header |
| Tar.TarTree.Advance | kernel/fs/tarfs.c:71-75 | from one header to the next, or to the end |
| Tar.TarTree.FindDir | kernel/fs/tarfs.c:210-234 | finds exactly the node whose path is one name longer; "." is the directory itself and ".." the node one name shorter |
| Tar.TarTree.ReadDir | kernel/fs/tarfs.c:168-208 | the directory, its parent, then each child in order, then the end |
| Tar.TarTree.Lookup | kernel/fs/tarfs.c:210-234 | a path is found exactly if some header path extends or equals it, and leads to the first such header |
| Tar.HeaderFields | kernel/fs/tarfs.c:69-72 | name and octal size read back from a header are those written; a name that fills its 100 bytes is read on into the fields behind it, up to their first NUL |
| Tar.ScanDigits | kernel/fs/tarfs.c:72-72 | octal digits round trip |
| Tar.NextHeader | kernel/fs/tarfs.c:73-75 | what the walk sees where the next entry starts |
| Tar.SiblingsDiffer | kernel/fs/tarfs.c:26-36 | sibling names are unique |
| Tar.HoldsFound | kernel/fs/tarfs.c:30-35 | an existing component keeps the first header |
| Tar.HoldsMade | kernel/fs/tarfs.c:37-47 | a new one gets this header, which is the first to reach it |
| Overlay.Readdir | kernel/fs/vfs.c:119-158 | listing with mounts laid over it: the directory itself, its parent, then each archived child with the first mount of its name if there is one |
| Overlay.Finddir | kernel/fs/vfs.c:159-183 | lookup: itself for ".", its parent for "..", the first mount of the name, or else the archived node of that name below it |
| Overlay.ListedIsFound | kernel/fs/vfs.c:119-183 | what is listed under a name is what the name finds exactly if the name is not ".", and not ".." unless that inode is the parent in the mount tree |
| Overlay.ListedOnce | kernel/fs/vfs.c:119-158 | every archived child is listed once, names differ, and the listing ends |
| Canon.Canonicalize | kernel/fs/vfs.c:336-406 | the two stacks compute the reduced path, or run into the null pointer: of the path alone if it is absolute or has no prefix, of prefix and path otherwise; the result begins with a slash |
| Canon.FaultsIff | kernel/fs/vfs.c:365-373 | the null pointer is met exactly if at some point there have been more ".." than names |
| Canon.OutcomeNormal | kernel/fs/vfs.c:359-405 | no ".", ".." or empty component in the result |
| Canon.Idempotent | kernel/fs/vfs.c:336-406 | a canonical path is its own canonical form |
| Canon.FitsIff | kernel/fs/vfs.c:393-401 | the result is one byte too long exactly if the path is empty, or has no slash at either end, none behind another, and no "." or ".."; absolute paths fit |
| Canon.RelativeOverflows | kernel/fs/vfs.c:393-401 | a path for which it does not fit |
| Canon.MeaningKept | kernel/fs/vfs.c:339-341 | where ".." is the parent and the path resolves, the result resolves to the same node |
| Canon.TarMeaningKept | kernel/fs/tarfs.c:210-234 | in particular in every archive tree, where a path that resolves never runs into the null pointer |
| Canon.PrefixMeaning | kernel/fs/vfs.c:349-357 | with a prefix, relative names start where the prefix leads |
| Descriptors.Files.Open | kernel/syscall/sys_fs.c:180-223 | if the file is found and granted and a slot is free, a fresh descriptor counted once in the lowest free slot; every other slot of every process as before |
| Descriptors.Files.Close | kernel/syscall/sys_fs.c:20-39 | the slot is empty and the descriptor freed exactly if it was the last; without an inode nothing happens; an empty slot is a null pointer, a number outside the table a wild one |
| Descriptors.Files.Dup | kernel/syscall/sys_fs.c:389-415 | the first free slot holds the same descriptor, counted once more; a negative number is refused, one above the table is a wild pointer; every other slot of every process as before |
| Descriptors.Files.Dup2 | kernel/syscall/sys_fs.c:424-452 | the slot holds the same descriptor, and the counts stay right exactly if the slot did not hold one without an inode; every other slot of every process as before |
| Descriptors.Files.Pipe | kernel/syscall/sys_fs.c:461-512 | two descriptors in the first two free slots; with one free slot a descriptor without an inode stays behind; every other slot of every process as before |
| Descriptors.Files.Fork | kernel/proc/process.c:166-179 | the child holds the same descriptors, all counted; exactly a descriptor without an inode makes it fault |
| Descriptors.Files.Exit | kernel/syscall/sys_process.c:29-37 | all slots are empty but those without an inode, and no other process is touched |
| Descriptors.Run | kernel/include/process.h:43-44 | every run on any number of processes is the fold of its calls, and after it a descriptor is live exactly while some slot holds it, and its count is the number of those slots; each call of the run does what it is for |
| Descriptors.Step | kernel/include/process.h:43-44 | one call, and that it frees a descriptor exactly when its last slot goes; and, told by slots and counts alone, what each call does (`Descriptors.Did`) |
| Descriptors.LeakAfterPipe | kernel/syscall/sys_fs.c:471-497 | a run of open, pipe and dup2 after which a descriptor nobody holds is counted |
| Descriptors.PutTotal | kernel/include/process.h:43-44 | how the number of holders changes with one slot |

## Left out

- The `copies` links of areas: copies rings are numbers in `Procmm`, and area lists sequences, so freeing and aliasing of area structures are not seen there. `AreaLinks` keeps the `mem` list of one process on its links; the run queues are on their links throughout.
- Page tables in the copy-on-write model: `Procmm` knows entries, not tables. `Tables` carries `fork` and `procmm_removeall` over to the tables; new areas, loads and stores of a `Machine` run are not.
- Machine.Run: user-mode loads and stores only; for the kernel's own see `Cow.KernelStore`. A run stops before an operation after which the invariant would not hold: a new area that would lose the order of the list, or leave present pages in no area (`Cow.NewAreaIff`), and a `fork` that passes areas that must not be shared (`sys_vidmem` makes one) or read-only ones that are filled on use and not empty, where `Procmm.Kernel.Fork` gives lists and page tables but no more. Stale TLB entries are outside the claim.
- Procmm.Kernel.ShareArea: the ring that the copy of an area joins which stays read-only; its links are never read, since only copy-on-write areas are split.
- Frames of removed areas: `procmm_removeall` and `procmm_exit` give no frame back to `pmm.c`; the model frees none either.
- Protection in `Paging`: the walk ignores the write and user bits; frame numbers are not bounded by 2^20, running out of frames belongs to `FrameStack`.
- The loop of `pmm_init` over the memory map: offered frames are taken as distinct.
- Execve.Process.Execve: the vectors are assumed to fit above address 0, and memory below the top of the stack to be there, as `Stack.ExecStores` says exactly when; there the program is taken to end below the vectors. Finding and loading the executable, and the errors of that, are not part of this model.
- Tar.TarTree.Build: names contain a slash, and the prefix field is not read; the first name has a component. Inode caching and its counts in `tar_get_inode` are not modelled; nor are inode types, so `Overlay` takes it as given whether a node is a directory (a directory without a header of its own has the type of its first file).
- Overlay.Finddir: drivers without `finddir`, which are searched by listing; mounting and unmounting, so the mounts of a directory are given.
- Descriptors.Run: `ino->users` is not claimed, since `dup` does not count in the inode; reaping a finished process (`free_process`) is not modelled; a run ends at the reply `Fault` or `Wild`.
- Signals, `clone_thread` and the wait list it leaves uninitialised, `clean_threads`, the family tree of processes.
- SchedulerSpec.Fair: without `scheduler_cheat`, which voids the bound (`SchedulerSpec.CheatOvertakes`).
- Devices, interrupt and context switch code, the C library, terminal and shell, user programs.
