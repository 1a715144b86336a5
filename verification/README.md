# A verified model of the kernel

This project models the hard parts of a small 32-bit x86 kernel in Dafny and proves
properties of them: memory management, the scheduler, the kernel heap, formatted
printing and the initial ramdisk.  `dafny verify dfyconfig.toml` checks everything.
`Basics` has two types that all parts use.

**Memory** (`Hardware`, `Ownership`, `Windows`, `Ranges`, `Mounts`, `Teardown`, `Boot`,
`Cloning`, `Lifecycle`, `Machine`, `Startup`).  Physical memory is 2^20 frames of 1024 words, a word
being a frame number and twelve flag bits; virtual addresses are resolved by the two-level
walk of 32-bit paging (section 4.3 of the Intel Software Developer's Manual, Volume 3A).
Class `Machine` has the state of `pmm.c` and `vmm.c` and one method for each of their
functions and loops.  Its methods load and store through virtual addresses, as the kernel
does, so that every access carries a proof of where the hardware walk leads.  A ghost
`World` records for each frame who owns it; the predicate `Inv` ties it to the page tables
and to the PMM stack and is kept by every method, which makes it true of every run.  So is
`AtRest`, which says what the mount slots hold while nothing is mounted.  `Startup` brings
the memory managers up in the order of `kernel/init/main.c`.

**Scheduler** (`Lists`, `Turns`, `Leaving`, `Order`, `Sched`, `RoundRobin`).  `CursorList` is the list
of `list.c` over its array, proved against the value type `Cursor`; class `Scheduler` keeps
the two nested loops of `schedule` over such values.  Destroyed records lose their names, and
whatever reads a record requires its name; only the store of `switch_context` into the record
of the thread being left does not, and `Leaving` says exactly when that record is gone.
`Order` gives the order in which threads come up, as a function of the lists before a call,
and what that decides.

**Heap** (`Chunks`, `HeapPages`, `KHeap`, `HeapKept`).  A row of chunks, the headers that
spell it out, and the pages under it.  Class `KHeap` works on a `Machine`: it takes frames
from its PMM, maps them with its `map` and gives them back with its `pmm_free_page`.

**Printing** (`Numbers`, `Formats`, `Directives`, `Printf`, `Vsprintf`).  `number` and `vsprintf`
write into an array; what they must write is given by a closed form for numbers and by parsing
and rendering for formats.  `Directives` says what that is for each directive, in terms of the
characters it is written with.

**Ramdisk** (`Initrd`, `InitrdFs`).  The packing tool and the mounted file system on bytes.

## Where the code departs from its purpose

The model follows the code, except where noted, and states each departure in a lemma or a
contract.

- `kernel/mm/kheap.c:89` puts the header of the remainder on the next header instead of
  inside the chunk, and `:91` leaves the old successor's back link alone.  `SplitChunk` is the
  intended split; `SplitWrittenBreaks` says exactly when the split as written is harmless.
- `kernel/mm/kheap.c:45`, `:74` and `:109` may store through a null pointer.  Page 0 is
  mapped, so the stores change nothing the heap reads; they are modelled as doing nothing.
- `kernel/sched/sched.c:68-70` does not step past a waiting thread, so the loop repeats for
  ever, though other threads could run.  `schedule` then has the outcome `Spinning`.  It does
  so exactly when the first thread in the order of the lists that is not dying waits
  (`OrderDecides`); `ThisList` and `LaterTask` say which thread that is, and `HangsAnyway` is
  such a case.
- `kernel/mm/vmm.c:144-146` reads the reference entry of every page mapped in the kernel
  half, and faults where the reference directory has no table.  `MapLooksUp` says when,
  `Slot1020Faults` is such a case, and `Map` panics there.
- `kernel/lib/list.c:34-35` records room for eight elements and allocates six, and `:67-70`
  checks neither.  The constructor of `CursorList` says so, and what appends to a list
  requires room for one more (`LIST_SLOTS`).
- `kernel/sched/sched.c:62-67` may destroy the record of the thread that runs, into which
  `kernel/asm/task.s:8-19` then stores six words.  `StrayStore` is a run that does it,
  `RecordLost` says when.
- `kernel/mm/vmm.c:263` and `:290` pass destination, with its flag bits, and source,
  `kernel/asm/vmm.s:8-9` reads source and destination.  So the code as written overwrites
  the page of the source.  The loops are modelled with the order intended.  `WindowIsCopied`
  and `SafeSources` say what the order written does: a directory that maps its own tables
  loses one of them, so that only the reference directory can be cloned safely.
- `kernel/mm/vmm.c:276-295` takes the windows of the source on itself for private tables and
  copies them; `:303-313` puts the new windows in their place.  `CloneThenDestroy`,
  `LostSlots` and `WindowsLost` say what that loses.
- The same loop copies the mounts in place, see `CloneUsesMounts`.
- `kernel/mm/vmm.c:305` does not clear the new table, see `CloneIsTree`.
- The region searched for thread stacks reaches over the window on the directory's own
  tables.  `StackPlaceFits` says when the search stays below it, `StackPlaceElse` what it
  answers otherwise, and `StackSearchReachesWindow` is such a case.
- `kernel/sched/sched.c:42-45` puts the last task in the place of an empty one, so a task that
  has just been added may come up before others that were ahead of the cursor.  `LapAdded` and
  `ComesLast` say when, `Overtakes` is such a case.
- Before the task cursor has passed the first task, that task can get two turns
  (`FirstTaskTwice`); this is the only exception to the round.
- `kernel/lib/vsprintf.c:135-142` and `:150-153` never step past a star.  The model follows
  the code: a star takes an argument and is then printed as an unknown conversion.
- `kernel/fs/initrd.c:26-48` answers for both directories, so /dev finds and lists the files of
  the root, see `PackedOrNot` and `DevListing`.
- `kernel/fs/initrd.c:20` compares a sum that may wrap, see `ReadCountClamps`.
- `kernel/lib/string.c:38-44` copies no terminator; the nodes work because they are zeroed,
  and an empty name is not copied properly, see `PackedMounts`.

A panic halts: where a result is `Panic`, nothing is said of the state after it.

## Model

| member | source | states |
|---|---|---|
| `Hardware.WindowWalk` | kernel/include/mm/vmm.h:19-23 | when a slot of the active directory names a directory, the hardware walk of the slot's addresses reaches exactly the entries of that directory's tables, page by page |
| `Hardware.PageWalk` | kernel/include/mm/vmm.h:19-23 | a mapped page shows its frame word by word to the hardware walk |
| `Ownership.StackHasRoom` | kernel/mm/pmm.c:44-51 | the "out of mem for free pages" panic is unreachable: by pigeonhole on the frames, a full stack that can still be asked to take a frame has fewer than 1024 pages |
| `Ownership.FreeFramesFit` | kernel/mm/pmm.c:37-58 | all frames the PMM holds are distinct and above the initial location, so there are never more than fit |
| `Ownership.FreeCount` | kernel/mm/pmm.c:37-58 | n frees from empty leave exactly ceil(n/1025) storage pages, the rest as entries, and together exactly the frames freed |
| `Ownership.FreeInv` | kernel/mm/pmm.c:37-58 | freeing a frame keeps the ownership of every frame and the shape of every directory, whether the stack grows or takes an entry |
| `Ownership.PopInv` | kernel/mm/pmm.c:25-34 | taking the top entry keeps the same, and the frame taken was on the stack at that depth and nowhere else |
| `Ownership.HandedOutOnce` | kernel/mm/pmm.c:17-58 | over any run of calls of pmm_alloc_page and pmm_free_page, a frame handed out a second time was given back in between |
| `Ownership.RunInv` | kernel/mm/pmm.c:17-58 | every run of such calls keeps the ownership of all frames, and no frame below the location is ever on the stack |
| `Windows.KernelHalfAgrees` | kernel/mm/vmm.c:69-85 | kernel-half agreement: in every reachable state every directory has the reference directory's nonzero entry in the shared slots and means the same by every page there |
| `Windows.OwnDirectory` | kernel/mm/vmm.c:44-64 | the active directory shows itself at its directory window, entry by entry |
| `Windows.OwnTables` | kernel/mm/vmm.c:55-64 | the active directory shows its tables as one array at its table window |
| `Windows.KernelDirectory` | kernel/mm/vmm.c:44-53 | every address space shows the reference directory at the same place |
| `Windows.KernelTables` | kernel/mm/vmm.c:55-60 | every address space shows the tables of the reference directory at the same place |
| `Windows.StackWord` | kernel/mm/pmm.c:29-34 | word n of the PMM stack is word n mod 1024 of its storage frame n / 1024, from every address space |
| `Windows.TablesApart` | kernel/mm/vmm.c:122-148 | two directories meet in a table only at the same slot and only in a shared entry |
| `Windows.MapInv` | kernel/mm/vmm.c:122-148 | mapping any ordinary page keeps all ownership and structure, new table included |
| `Windows.MapRefines` | kernel/mm/vmm.c:122-148 | map is the update of one page of the flat page table, in the active space and in those that share the table, and of nothing else, also when it makes and zeroes a new table |
| `Windows.MapEntry` | kernel/mm/vmm.c:126-132 | of the directory itself map writes at most one word: a table it makes is entered as present and writable |
| `Windows.NoKernelTable` | kernel/mm/vmm.c:144-146 | the entry of a page can be read in the reference tables if and only if the reference directory has a table there |
| `Windows.MapLooksUp` | kernel/mm/vmm.c:144-146 | having mapped a page of the kernel half, map can read the reference entry of the page if and only if it works on the reference directory or that had a table for the page before |
| `Windows.Slot1020Faults` | kernel/mm/vmm.c:144-146 | counterexample: from any other directory every page of slot 1020 may be mapped, and the read that follows faults as long as the reference directory has no table there, as after boot |
| `Ranges.ScanResult` | kernel/mm/vmm.c:177-198 | the plain search returns a candidate with all its pages unmapped, or the end |
| `Ranges.ScanSkips` | kernel/mm/vmm.c:177-198 | every candidate before the one returned is taken, so the result is the leftmost |
| `Ranges.ScanSkip` | kernel/mm/vmm.c:184-194 | a candidate that reaches over a mapped page may be skipped, which is what the inner loop does |
| `Ranges.ScanStaysInside` | kernel/sched/thread.c:22 | when the step is the size and the size divides the interval the result lies inside it |
| `Ranges.StackPlaceFits` | kernel/sched/thread.c:21-29 | for every size, the stack lies below the windows of the directory if and only if one of the candidates below them is unmapped |
| `Ranges.StackPlaceNone` | kernel/sched/thread.c:24-25 | the search fails if and only if no candidate of the whole region is unmapped |
| `Ranges.StackPlaceElse` | kernel/sched/thread.c:21-29 | in between, the place lies in the window on the directory's own tables, and mapping its first page would write an empty entry of the directory |
| `Ranges.StackPlaceOk` | kernel/sched/thread.c:21-29 | when a candidate below the windows is unmapped, the place is unmapped and consists of pages that map may be asked for |
| `Ranges.StackSearchReachesWindow` | kernel/sched/thread.c:22 | counterexample: with the pages below it taken, the stack search answers with a page of the directory's table window, where mapping would write a directory entry |
| `Ranges.RangeExtend` | kernel/mm/vmm.c:205-213 | one more page of allocate_range: earlier pages keep what they got, pages outside are untouched, no frame in use changes owner, no other directory or table is written, and one frame per unmapped page and per missing table is taken |
| `Mounts.MountRestores` | kernel/mm/vmm.c:232-261 | mount followed by umount restores memory exactly |
| `Mounts.MountShows` | kernel/mm/vmm.c:251-254 | a mounted directory shows at both mount windows |
| `Mounts.MountedDirectory` | kernel/mm/vmm.c:252 | through the directory window the hardware walk reaches entry i of the mounted directory |
| `Mounts.MountedTables` | kernel/mm/vmm.c:253-254 | through the table window it reaches the entry for page n |
| `Mounts.SecondMount` | kernel/mm/vmm.c:217-230 | after one mount there is a second mount point exactly when two were free before |
| `Mounts.AtRestInUse` | kernel/mm/vmm.c:270-272 | while nothing is mounted, what the mount slots of any directory show is in use, which is what clone_directory asks of its source |
| `Teardown.ReleasedOnce` | kernel/mm/vmm.c:332-346 | the frames destroy_directory gives back are without repetition |
| `Teardown.FreesKeep` | kernel/mm/vmm.c:332-346 | a run of such frees keeps the ownership invariant, touches no other frame's role and only the PMM stack's memory, and loses no frame |
| `Teardown.Intact` | kernel/mm/vmm.c:332-346 | half way through, the windows still show the directory, and no table has been freed before it is read |
| `Teardown.AllocateKeepsTree` | kernel/mm/vmm.c:200-215 | whatever directory could be torn down before allocate_range can be torn down after it, the active one with its new pages and tables included |
| `Teardown.DestroyKeepsTree` | kernel/mm/vmm.c:321-349 | destroying one directory leaves every other as ready to be torn down as it was |
| `Teardown.OwnIsGivenBack` | kernel/mm/vmm.c:332-348 | in words of memory: destroy_directory gives back the directory, every table of the user half that differs from the reference directory's, other than the window on its own tables, and every page such a table maps, other than the window on the directory itself; no other frame changes hands |
| `Teardown.AllocateThenDestroy` | kernel/mm/vmm.c:200-215 | of the frames allocate_range takes, destroying the directory gives back all but those of slots of the kernel half and of slots shared with the reference directory, whoever made the tables; what it does not take is still on the stack |
| `Teardown.UserRangeReturned` | kernel/mm/vmm.c:200-215 | program text, data and stacks of a process: for a range in slots of the user half that are not shared, every frame taken comes back |
| `Teardown.PopKeepsRest` | kernel/mm/pmm.c:25-34 | taking a frame keeps the mount slots at rest: empty in the reference directory, and in any other holding nothing that could be freed while it lives |
| `Teardown.FreesKeepRest` | kernel/mm/pmm.c:37-83 | so do frees, one or many |
| `Teardown.MapKeepsRest` | kernel/mm/vmm.c:122-158 | so do map and unmap |
| `Teardown.AddsKeepRest` | kernel/mm/vmm.c:200-215 | so does allocate_range |
| `Teardown.DestroyKeepsRest` | kernel/mm/vmm.c:321-349 | so does destroy_directory |
| `Boot.BootInv` | kernel/mm/vmm.c:28-108 | what init_vmm leaves satisfies the ownership invariant, from any memory contents |
| `Boot.BootFramesStay` | kernel/mm/pmm.c:17-58 | over any run of the PMM after init_vmm, no frame taken before paging was on enters the stack |
| `Boot.BootView` | kernel/mm/vmm.c:28-108 | after boot the first 4 MB are mapped to themselves, the directory at its window and the tables in the last 4 MB, for the kernel alone and writable, and nothing else is mapped |
| `Boot.BootRest` | kernel/mm/vmm.c:28-108 | init_vmm leaves the mount slots at rest |
| `Boot.UsableOnce` | kernel/mm/pmm.c:60-83 | what the collection frees lies in usable regions above the location, and no frame comes twice |
| `Boot.UsableComplete` | kernel/mm/pmm.c:65-81 | nothing usable is left behind: every frame from the location on that lies in a usable region is collected |
| `Cloning.CloneEnds` | kernel/mm/vmm.c:273-317 | the loops, the self-mapping and the two unmounts give a clone of any directory: shared and empty slots equal, private slots fresh tables with zero exactly where the source has it and elsewhere a frame of its own with the source's flags, present, write, user, and the contents of the page; everything else as before, at the exact price |
| `Cloning.WindowIsCopied` | kernel/mm/vmm.c:276-292 | a directory that carries windows on itself has slot 959 copied as if it were a private table, and with the arguments in the order written that copy overwrites one of its own tables |
| `Cloning.SafeSources` | kernel/mm/vmm.c:276-292 | with the arguments in the order written, among the directories that can be active exactly the reference directory can be cloned without overwriting a table |
| `Lifecycle.CloneShowsSource` | kernel/mm/vmm.c:273-295 | every page of every slot but 958 is mapped in the clone exactly if it is in the source, and reads the same |
| `Lifecycle.PrivatePageCopied` | kernel/mm/vmm.c:281-293 | a page of a private table of the source is a page of the clone's own, with the source's flags and a copy of its contents |
| `Lifecycle.CloneUsesMounts` | kernel/mm/vmm.c:270-272 | a copy of the active directory has exactly two mount slots less than the original, because the mounts in place are copied with it |
| `Lifecycle.CloneIsTree` | kernel/mm/vmm.c:305-309 | a clone can be torn down exactly when the frame about to become the table of slot 958, which is not cleared, holds nothing or only frames that the loops are going to record for its pages: all of it told by the state before the call |
| `Lifecycle.KernelCloneIsTree` | kernel/mm/vmm.c:305-309 | for a copy of the reference directory the owners before the call decide |
| `Lifecycle.CloneThenDestroy` | kernel/mm/vmm.c:265-349 | cloning any directory and destroying the copy gives back every frame but exactly those the loops took for slots 958, 959 and from 960 on |
| `Lifecycle.LostSlots` | kernel/mm/vmm.c:276-313 | what is lost is the price of slot 958, of slot 959 and of the slots from 960 on |
| `Lifecycle.WindowsLost` | kernel/mm/vmm.c:276-313 | for a directory with windows on itself that is a frame for each of its directory entries and for each page of slot 958, and two more |
| `Lifecycle.PricePlain` | kernel/mm/vmm.c:276-295 | when the source is not active and shows no mount, the price is counted on the memory before the call |
| `Lifecycle.KernelCloneShares` | kernel/mm/vmm.c:279-280 | a copy of the reference directory shares every slot but the two it maps itself with, costs two frames and loses none |
| `Lifecycle.KernelCloneThenDestroy` | kernel/mm/vmm.c:265-349 | cloning the reference directory and destroying the copy puts the PMM stack back exactly as it was, in the same order |
| `Lifecycle.CloneKeepsMounts` | kernel/mm/vmm.c:265-319 | a clone satisfies what clone_directory asks of its source, and so does every directory that did before |
| `Lifecycle.CloneKeepsTree` | kernel/mm/vmm.c:265-319 | cloning leaves every other directory as ready to be torn down as it was |
| `Lifecycle.CloneKeepsRest` | kernel/mm/vmm.c:265-319 | clone_directory leaves the mount slots at rest, those it copies into the clone included |
| `Machines.Machine.constructor` | kernel/mm/pmm.c:12-15 | the first frame handed out is the first page boundary above the end of the image |
| `Machines.Machine.PmmAllocPage` | kernel/mm/pmm.c:17-35 | before paging frames come from the moving limit, afterwards from the top of the stack; it panics exactly when the stack is empty |
| `Machines.Machine.PmmFreePage` | kernel/mm/pmm.c:37-58 | frames below the limit are ignored, any other frame is pushed or becomes stack storage; never panics |
| `Machines.Machine.CollectRegion` | kernel/mm/pmm.c:71-76 | one region of the boot memory map: every frame of it from the limit on is on the stack or holds part of it afterwards, and no other changes hands; memory and owners are those after exactly these frees, in order |
| `Machines.Machine.PmmCollectPages` | kernel/mm/pmm.c:60-83 | every frame of a usable region from the location on is on the stack or holds part of it afterwards, and no other frame changes hands; memory and owners are those after exactly these frees, which write the PMM stack and nothing else; from empty, one frame in 1025 becomes storage and none is lost |
| `Machines.Machine.MakeKernelTables` | kernel/mm/vmm.c:69-76 | each kernel slot gets a zeroed table of its own; run a second time the loop changes nothing |
| `Machines.Machine.MapLowMemory` | kernel/mm/vmm.c:41-42 | the identity mapping |
| `Machines.Machine.MakeSkeleton` | kernel/mm/vmm.c:28-60 | directory, identity mapping and the two windows, written with paging off |
| `Machines.Machine.MakeStackTable` | kernel/mm/vmm.c:103-114 | the table of the PMM stack is entered and cleared through the windows just made |
| `Machines.Machine.InitVmm` | kernel/mm/vmm.c:19-115 | boot from arbitrary memory ends in a valid machine |
| `Machines.Machine.ZeroPageAt` | kernel/lib/string.c:12-17 | clearing a page through a mapping clears exactly the frame mapped |
| `Machines.Machine.EnsureTable` | kernel/mm/vmm.c:126-137 | a missing table is made from the top free frame and zeroed through the window it appears in |
| `Machines.Machine.KernelOutdated` | kernel/mm/vmm.c:144-147 | the comparison that prints the warning: it faults exactly where the reference directory has no table, tells whether the space means something else by the page than the reference directory, and never does so in the shared slots |
| `Machines.Machine.Map` | kernel/mm/vmm.c:122-148 | map writes exactly one entry, the frame and the flags asked for with the present bit, and enters a table it has to make as present and writable; it panics exactly when a table is needed and no frame is free, or the page is one whose reference entry cannot be read |
| `Machines.Machine.Unmap` | kernel/mm/vmm.c:150-158 | unmap zeroes exactly one entry, and the page is unmapped afterwards |
| `Machines.Machine.GetMapping` | kernel/mm/vmm.c:160-175 | get_mapping is lookup on the flat page table and carries the offset along |
| `Machines.Machine.SwitchPageDirectory` | kernel/mm/vmm.c:117-120 | switching keeps the machine valid |
| `Machines.Machine.FirstMapped` | kernel/mm/vmm.c:184-188 | the inner loop finds a mapped page or none up to the end of the candidate |
| `Machines.Machine.FindFreeRange` | kernel/mm/vmm.c:177-198 | the search that skips ahead returns what the plain search returns |
| `Machines.Machine.MapOrAllocate` | kernel/mm/vmm.c:206-212 | one page: a mapped page keeps its frame and gets the flags, an unmapped one gets a fresh frame; succeeds exactly when the frames needed are there and the reference entry can be read |
| `Machines.Machine.AllocateRange` | kernel/mm/vmm.c:200-215 | every page of the rounded range is mapped, mapped pages keep their frames, every frame in use keeps its owner, nothing outside changes; every frame taken serves as an unmapped page of the range or as a table it lacked; succeeds exactly when the frames needed are there and the reference entry of each page can be read, and takes exactly those |
| `Machines.Machine.AllocateStack` | kernel/sched/thread.c:21-29 | a new thread stack lies on pages that were unmapped, and its pages are mapped for the user; succeeds exactly when a candidate is free and the frames needed are there |
| `Machines.Machine.FindDirectoryPage` | kernel/mm/vmm.c:220-223 | first loop of find_mount_point: the first free directory page |
| `Machines.Machine.FindTableSlot` | kernel/mm/vmm.c:224-227 | second loop: the first free slot |
| `Machines.Machine.FindMountPoint` | kernel/mm/vmm.c:217-230 | the first free directory page and the first free slot, or the panic when one is missing |
| `Machines.Machine.CheckMountPoint` | kernel/mm/vmm.c:240-249 | the checks never fire on a mount point just found |
| `Machines.Machine.MountDirectory` | kernel/mm/vmm.c:232-255 | mounting writes the two mount entries and nothing else |
| `Machines.Machine.UmountDirectory` | kernel/mm/vmm.c:257-261 | unmounting zeroes the two mount entries and nothing else |
| `Machines.Machine.FreeLeaves` | kernel/mm/vmm.c:337-341 | the inner loop frees exactly the frames of the table, in order, and reads the table only while it is not freed |
| `Machines.Machine.FreeSlot` | kernel/mm/vmm.c:332-345 | one slot: its leaves, then its table; which slots and pages those are is the subject of `OwnIsGivenBack` |
| `Machines.Machine.DestroyDirectory` | kernel/mm/vmm.c:321-349 | the directory, every table of the user half that is not shared and every page such a table maps are given back, in the words of `OwnIsGivenBack`, each exactly once; every other frame keeps its owner and, but for the kernel tables and the PMM stack, its contents; every other space keeps its meaning |
| `Machines.TeardownEnds` | kernel/mm/vmm.c:321-349 | after the last free and the unmount the owners, contents and meanings of everyone else are those of before |
| `Machines.Machine.CopyPagePhysical` | kernel/asm/vmm.s:3-32 | the frame of the second argument becomes a copy of the frame of the first, as the assembly does it, and nothing else changes |
| `Machines.Machine.NewEntry` | kernel/mm/vmm.c:288-289 | the new entry names a fresh frame recorded for this page of this directory |
| `Machines.Machine.CopyPage` | kernel/mm/vmm.c:290-291 | the frame of the new entry becomes a copy of the page of the source entry |
| `Machines.Machine.AddFlags` | kernel/mm/vmm.c:292 | the flags of the source entry are added to the new one |
| `Machines.Machine.CloneEntry` | kernel/mm/vmm.c:285-293 | one entry: zero stays zero, any other becomes a fresh frame with a copy of the page; panics only for want of that frame |
| `Machines.Machine.StartTable` | kernel/mm/vmm.c:282-284 | the new table is entered and cleared through the window of the directory being built |
| `Machines.Machine.CloneTable` | kernel/mm/vmm.c:281-294 | a private slot becomes a fresh table with copies of the same pages, at the price of the table and its pages |
| `Machines.Machine.CloneSlot` | kernel/mm/vmm.c:276-295 | one slot: empty, shared or copied |
| `Machines.Machine.SelfMapClone` | kernel/mm/vmm.c:297-313 | the windows of the new directory on itself; the table of slot 958 is not cleared |
| `Machines.Machine.CloneSlots` | kernel/mm/vmm.c:273-295 | the new directory is cleared and its 1024 slots are done at the expected price |
| `Machines.Machine.FillClone` | kernel/mm/vmm.c:273-313 | both directories mounted, the loops and the self-mapping make a clone |
| `Machines.Machine.CloneDirectory` | kernel/mm/vmm.c:265-319 | for every source, the active directory and those with windows on themselves included: clone_directory succeeds exactly when two mount points and the exact number of frames are there, and then leaves a clone that may be switched to |
| `Lists.RemoveTakesCurrent` | kernel/lib/list.c:72-83 | removal takes out exactly the current element, leaves what is before the cursor alone and keeps the rest ahead of it, as multisets |
| `Lists.RemoveNoDup` | kernel/lib/list.c:72-83 | without repetition removal is set subtraction, also of what lies ahead of the cursor |
| `Lists.CursorList.constructor` | kernel/lib/list.c:31-39 | a new list is empty; a capacity of eight is recorded and six slots are allocated |
| `Lists.CursorList.ListIsEnd` | kernel/lib/list.c:89-91 | whether the cursor is past the last element |
| `Lists.CursorList.ListIsEmpty` | kernel/lib/list.c:85-87 | whether there are no elements |
| `Lists.CursorList.ListCurrent` | kernel/lib/list.c:46-50 | the element at the cursor, or nothing past the end |
| `Lists.CursorList.ListNext` | kernel/lib/list.c:52-55 | moves the cursor on by one and leaves the elements alone |
| `Lists.CursorList.ListRewind` | kernel/lib/list.c:63-65 | moves the cursor to the start and leaves the elements alone |
| `Lists.CursorList.ListPushBack` | kernel/lib/list.c:67-70 | the elements are the old ones followed by the new one and the cursor has not moved, as long as one of the six slots is free |
| `Lists.CursorList.ListRemove` | kernel/lib/list.c:72-83 | swap with the last and shorten: element by element what is left, and the removal of the specification |
| `Turns.SkipEmpty` | kernel/sched/sched.c:42-45 | an empty task at the cursor is neither the running task nor the one with a live thread, and its removal keeps the cursor on track |
| `Turns.TakeTask` | kernel/sched/sched.c:38-47 | stepping over a task keeps a live thread ahead of the cursor or the running task behind it |
| `Turns.TurnReaps` | kernel/sched/sched.c:62-67 | reaping a dying thread keeps the whole invariant of the outer loop and makes the set of threads smaller |
| `Turns.PickWrap` | kernel/sched/sched.c:36-37 | rewinding the task cursor keeps it |
| `Sched.Scheduler.constructor` | kernel/sched/sched.c:9-15 | the thread given runs, in the task and the directory given, the thread cursor behind it and the task cursor at its task, and nothing else exists |
| `Sched.Scheduler.DestroyTask` | kernel/sched/task.c:25-32 | a task without threads goes with its directory; panics exactly on the reference directory |
| `Sched.Scheduler.PickTask` | kernel/sched/sched.c:34-48 | the inner loop ends on a task with threads, has removed only tasks without, and never the running one |
| `Sched.Scheduler.ChangeTask` | kernel/sched/sched.c:31-57 | a finished list leads to the next task with threads; in a steady state to the next task in order |
| `Sched.Scheduler.NextThread` | kernel/sched/sched.c:30-76 | the loops end; what they find is a running thread at the cursor just passed, and the task handed on is null exactly when it is the running one |
| `Sched.Scheduler.LookAtThread` | kernel/sched/sched.c:59-75 | a dying thread at the cursor is reaped, a waiting one changes nothing, a running one is stepped over |
| `Turns.OneOutcome` | kernel/sched/sched.c:22-84 | what schedule does is determined by the lists, the states and the cursors: one thread to run or one to wait on |
| `Turns.LeadsOnce` | kernel/sched/sched.c:30-76 | of the threads the loop looks at only the last is not dying, so the place where it ends is unique |
| `Leaving.RecordLost` | kernel/sched/sched.c:30-83 | when schedule finds a thread to run, it has destroyed the record of the thread it leaves if and only if that thread, the first of its task and those not yet looked at are dying and every task that comes up before is left without a thread to stop at |
| `Leaving.StrayStore` | kernel/asm/task.s:8-19 | counterexample: with threads d, r, c in one task, c running and exited and d killed, c is brought to the front and destroyed before r is found |
| `Order.OrderDecides` | kernel/sched/sched.c:22-84 | the threads come up in an order told by the lists alone, and the first in it that is not dying decides: the call hangs if and only if that thread waits, finds a thread to run if and only if it runs, and panics if and only if a task without threads that has the reference directory comes before |
| `Order.EndsSomewhere` | kernel/sched/sched.c:30-76 | as long as some listed thread is not dying there is such an end |
| `Order.ReapStep` | kernel/sched/sched.c:62-67 | a reaped thread was the first to come up, and the others still do, in the same order |
| `Order.PickStops` | kernel/sched/sched.c:34-48 | going back to the start, destroying tasks without threads and taking one leave the walk on the way to the same end, or it comes to the reference directory as foretold |
| `Order.ArriveStops` | kernel/sched/sched.c:31-60 | so does the change of task, and what is looked at next is the end if it is not dying |
| `Order.ThisList` | kernel/sched/sched.c:59-75 | if the current list has a thread at or ahead of the cursor that is not dying, the one at the cursor if it lives, else the last that lives, decides |
| `Order.LaterTask` | kernel/sched/sched.c:30-76 | else, with the tasks before it dying throughout, the first thread of the next task if it lives, else the last of that task that lives |
| `Order.HangsAnyway` | kernel/sched/sched.c:68-70 | counterexample: with threads c, w, r in one task, c running and just done, w waiting and r running, the call hangs on w |
| `Order.AddedThread` | kernel/sched/task.c:34-36 | a thread added to a list comes up right after the one at the cursor, before the others, which stay in their order |
| `Order.LapAdded` | kernel/sched/sched.c:17-19 | a task added comes up after all tasks ahead of the task cursor, unless one of them is without threads: then it takes the place of the first such task, after those before it |
| `Order.ComesLast` | kernel/sched/sched.c:17-19 | it comes up last if and only if no task ahead, other than perhaps the last one, is without threads |
| `Order.Overtakes` | kernel/sched/sched.c:42-45 | counterexample: behind an empty task the task added overtakes one that was ahead of the cursor before it came |
| `Order.AddedTask` | kernel/sched/sched.c:17-84 | adding a task changes nothing in front of that place: what stopped the walk there still does; if nothing did, the thread added is what schedule comes to next, or the empty task whose place it takes, if that has the reference directory |
| `Sched.Scheduler.FindThread` | kernel/sched/sched.c:30-76 | the loops from a state where no call is under way |
| `Sched.Scheduler.SwitchContext` | kernel/asm/task.s:6-43 | the registers go into the record of the thread left, those of the other thread are loaded; thread, task and directory after it; whether the record written to was destroyed |
| `Sched.Scheduler.Schedule` | kernel/sched/sched.c:22-84 | the outcome is told by the lists and states before the call: the first thread in their order that is not dying is hung on if it waits and run if it runs, and a panic means that the reference directory came before; schedule never destroys the directory it runs in, removes only dying threads and empty tasks, keeps task and thread in agreement, and in a steady state is one step of the round; switch_context saves the registers of the thread left and loads those saved of the thread found, and its store goes to a destroyed record exactly when LosesRecord held before |
| `Sched.Scheduler.ScheduleAddTask` | kernel/sched/sched.c:17-19 | the tasks are the old ones followed by the new one, the task cursor has not moved, and everything stays valid, as long as the list has room |
| `Sched.Scheduler.TaskAddThread` | kernel/sched/task.c:34-36 | the threads of the task are the old ones followed by the new one, its cursor has not moved, and everything stays valid, as long as the list has room |
| `Sched.Scheduler.Sleep` | kernel/sched/sched.c:90-93 | the sleeping thread is left waiting in its list and is never the one switched to; whether there is one is told by the order of the threads before the call |
| `Sched.Scheduler.Wakeup` | kernel/sched/sched.c:95-97 | marks the thread running |
| `Sched.Scheduler.Kill` | kernel/sched/sched.c:99-102 | marks any thread but the running one dying |
| `Sched.Scheduler.ThreadExit` | kernel/sched/thread.c:59-64 | marks the running thread dying |
| `RoundRobin.AdvanceMoves` | kernel/sched/sched.c:30-76 | in a steady state a call picks the thread at the cursors and moves one place on in the long list of all threads |
| `RoundRobin.OneRound` | kernel/sched/sched.c:30-76 | N calls in a row pick the multiset of all N threads |
| `RoundRobin.FirstTaskTwice` | kernel/sched/sched.c:9-15 | before the task cursor has passed the first task that task gets a second turn |
| `RoundRobin.RoundRobin` | kernel/sched/sched.c:30-76 | over any run of N calls with N running threads each thread is picked exactly once, if and only if the scheduler is not still inside its very first list |
| `Chunks.OwnBytes` | kernel/mm/kheap.c:10-48 | no byte belongs to two chunks |
| `Chunks.KmallocKeeps` | kernel/mm/kheap.c:16-48 | kmalloc keeps the heap in order and adds exactly one chunk in use, large enough and new |
| `Chunks.KmallocServes` | kernel/mm/kheap.c:19-48 | the chunk given starts where the first free chunk that is large enough starts, or else at the end; it is never longer than asked for by more than a header; when the chunk found is longer than that, the chunk given has exactly the size asked for and the rest is a free chunk right behind; every other chunk, free or in use, stays |
| `Chunks.KfreeKeeps` | kernel/mm/kheap.c:56-60 | kfree keeps the heap in order and takes away exactly the chunk it is given; no two free neighbours, last chunk never free |
| `Chunks.KfreeIsGlued` | kernel/mm/kheap.c:100-114 | unmark, take in the successor, be taken in by the predecessor, disappear: together they make one free chunk of the chunk and its free neighbours |
| `Chunks.KmallocThenKfree` | kernel/mm/kheap.c:16-60 | kfree of what kmalloc just gave restores the chunks exactly |
| `Chunks.MergeLinked` | kernel/mm/kheap.c:101-109 | the pointer edits of a merge spell out the merged row |
| `Chunks.SplitLinked` | kernel/mm/kheap.c:87-98 | the pointer edits of the intended split spell out the split row |
| `Chunks.AppendLinked` | kernel/mm/kheap.c:39-45 | the edits that append a chunk spell out the longer row |
| `Chunks.DropLinked` | kernel/mm/kheap.c:74-76 | the edits that drop the last chunk spell out the shorter row |
| `Chunks.SplitWrittenBreaks` | kernel/mm/kheap.c:87-98 | the split as written leaves a heap if and only if there is no remainder to split off; otherwise the header of a chunk in use becomes free and links to itself |
| `HeapPages.HeapSeenEverywhere` | kernel/mm/kheap.c:66-70 | mapping a heap page never needs a table and is seen in every address space |
| `HeapPages.GrowThenTrim` | kernel/mm/kheap.c:66-84 | trimming the pages a growth added puts the PMM back exactly where it was |
| `HeapPages.TrimOnce` | kernel/mm/kheap.c:78-84 | each trimmed frame goes back once and may be freed |
| `HeapPages.TrimmedLess` | kernel/mm/kheap.c:78-84 | one page less: frame freed, page unmapped, all other pages as before |
| `HeapPages.GrownMore` | kernel/mm/kheap.c:66-70 | one page more: the top frame of the stack, all other pages as before |
| `HeapPages.GrowthKeepsRest` | kernel/mm/kheap.c:62-71 | a growing heap leaves the mount slots at rest |
| `HeapPages.GrowthKeepsTree` | kernel/mm/kheap.c:62-71 | ... and every directory as ready to be torn down as it was |
| `HeapPages.TrimKeepsRest` | kernel/mm/kheap.c:73-85 | a shrinking heap leaves the mount slots at rest |
| `HeapPages.TrimKeepsTree` | kernel/mm/kheap.c:73-85 | ... and every directory as ready to be torn down as it was |
| `HeapKept.MapKeepsHeap` | kernel/mm/vmm.c:122-148 | mapping pages elsewhere leaves every heap page on its frame |
| `HeapKept.AllocateKeepsHeap` | kernel/mm/vmm.c:200-215 | so does allocate_range of pages elsewhere |
| `HeapKept.FreeKeepsHeap` | kernel/mm/pmm.c:37-58 | so does freeing any other frame |
| `HeapKept.FreesKeepHeap` | kernel/mm/pmm.c:60-83 | so does a run of frees, the collection of the usable memory for one |
| `HeapKept.BootHeap` | kernel/mm/vmm.c:66-76 | after init_vmm no page of the heap is mapped |
| `HeapKept.DestroyKeepsHeap` | kernel/mm/vmm.c:321-349 | so does destroying an address space |
| `HeapKept.CloneKeepsHeap` | kernel/mm/vmm.c:265-319 | so does cloning one |
| `KHeaps.MallocFreeRestores` | kernel/mm/kheap.c:16-85 | kmalloc then kfree: chunks, end of heap, PMM and every address space are as before |
| `KHeaps.KHeap.constructor` | kernel/mm/kheap.c:10-14 | the empty heap |
| `KHeaps.KHeap.MorePage` | kernel/mm/kheap.c:66-70 | a frame off the stack becomes the next heap page; panics exactly when there is none |
| `KHeaps.KHeap.AllocChunk` | kernel/mm/kheap.c:62-71 | grows page by page to the first boundary not below the end asked for; succeeds exactly when the region and the free frames suffice |
| `KHeaps.KHeap.LessPage` | kernel/mm/kheap.c:78-84 | the last page is unmapped and its frame freed |
| `KHeaps.KHeap.FreeChunk` | kernel/mm/kheap.c:73-85 | the last chunk leaves the list and exactly the pages wholly behind the rest go back |
| `KHeaps.KHeap.SplitChunk` | kernel/mm/kheap.c:87-98 | the intended split |
| `KHeaps.KHeap.GlueNext` | kernel/mm/kheap.c:101-105 | merge with a free successor |
| `KHeaps.KHeap.GluePrev` | kernel/mm/kheap.c:106-111 | merge into a free predecessor |
| `KHeaps.KHeap.GlueChunk` | kernel/mm/kheap.c:100-114 | both merges and the release at the end |
| `KHeaps.KHeap.Search` | kernel/mm/kheap.c:19-28 | finds the first free chunk that is large enough |
| `KHeaps.KHeap.Occupy` | kernel/mm/kheap.c:21-25 | what is done with a chunk that fits |
| `KHeaps.KHeap.Behind` | kernel/mm/kheap.c:30-36 | where the next chunk begins |
| `KHeaps.KHeap.Append` | kernel/mm/kheap.c:30-47 | a chunk behind the last one |
| `KHeaps.KHeap.Kmalloc` | kernel/mm/kheap.c:16-48 | first fit with the intended split, or append, in the words of `KmallocServes`; succeeds exactly when one is possible; mapped pages are exactly those below the end of the heap; every frame but the tables of the kernel half keeps its contents, and the mount slots stay at rest |
| `KHeaps.KHeap.Kfree` | kernel/mm/kheap.c:56-60 | the chunks in use afterwards are those before but this one; merges and trims; every frame not given back keeps its contents, but for the tables of the kernel half and the PMM stack, and the mount slots stay at rest |
| `Startup.StartMemory` | kernel/init/main.c:43-57 | the memory managers in the order in which the kernel starts them: what each asks for the one before has left, and after the last the machine and the empty heap are valid, the mount slots at rest, the PMM holds exactly the frames of the usable regions above the image, and nothing below the first frame taken has been written |
| `Startup.CollectedHeap` | kernel/mm/pmm.c:60-83 | the collection leaves the heap empty and the memory below the first frame as it was |
| `Numbers.NumberLength` | kernel/lib/vsprintf.c:49-86 | the field has max(width, sign + prefix + max(precision, digits)) characters |
| `Numbers.NumberReadsBack` | kernel/lib/vsprintf.c:31-88 | whatever flags, width, precision and base, the field reads back as the number, INT_MIN included |
| `Numbers.Unpadded` | kernel/lib/vsprintf.c:44-84 | without a field width: sign, mark of the base, zeros up to the precision and a numeral of the base, its letters in one case and without leading zeros, that reads as the magnitude |
| `Numbers.Padded` | kernel/lib/vsprintf.c:65-86 | a field width adds blanks behind under -, else zeros between the mark of the base and the digits under 0, else blanks in front, up to the width and nothing more |
| `Numbers.DigitsValue` | kernel/lib/vsprintf.c:56-61 | the digits evaluate to the number |
| `Printf.Fill` | kernel/lib/vsprintf.c:66-67 | the padding loop and the value of the counter it leaves |
| `Printf.Convert` | kernel/lib/vsprintf.c:56-61 | the division loop leaves the digits last first, and 36 places suffice |
| `Printf.CopyBack` | kernel/lib/vsprintf.c:83-84 | the digits come out in order |
| `Printf.PutSign` | kernel/lib/vsprintf.c:68-69 | the sign, if any |
| `Printf.PutPrefix` | kernel/lib/vsprintf.c:70-77 | the prefix of base 8 or 16 |
| `Printf.PutHead` | kernel/lib/vsprintf.c:65-80 | everything before the digits |
| `Printf.PutBody` | kernel/lib/vsprintf.c:81-84 | zeros of the precision and digits |
| `Printf.PutField` | kernel/lib/vsprintf.c:65-86 | the whole field with its padding |
| `Printf.Narrowed` | kernel/lib/vsprintf.c:49-55 | the field width without sign and prefix |
| `Printf.Number` | kernel/lib/vsprintf.c:31-88 | number writes exactly the specified text and nothing else, and refuses a base outside 2 to 36 |
| `Formats.PlainText` | kernel/lib/vsprintf.c:104-108 | a format without percent signs is its own output |
| `Formats.ParseSplits` | kernel/lib/vsprintf.c:104-163 | a format whose directives are complete means the same whatever follows it |
| `Formats.RenderSplits` | kernel/lib/vsprintf.c:104-239 | rendering hands arguments and count on from left to right |
| `Formats.FormatSplits` | kernel/lib/vsprintf.c:90-242 | formatting by parts |
| `Directives.EveryText` | kernel/lib/vsprintf.c:110-163 | every text behind a percent sign is flag letters, a width, a precision and a qualifier followed by a character that is none of them, so that the lemmas below cover every directive |
| `Directives.FlagsMean` | kernel/lib/vsprintf.c:110-129 | which flag each of the letters - + space # 0 sets, in any order and number |
| `Directives.MarksMean` | kernel/lib/vsprintf.c:110-163 | any such text is read as these flags and as the decimal numbers written, -1 where there is none and 0 for a lone point |
| `Directives.NumberDirective` | kernel/lib/vsprintf.c:192-223 | x, X and p write the argument in base 16, with small letters for x alone, o in base 8, b in base 2, d, i and u in base 10, d and i with its signed meaning: sign, mark of the base, zeros of the precision and numeral, in a field of max(width, length) with the padding at the place the flags ask for; p without a width asks for eight places filled with zeros |
| `Directives.DirectiveReadsBack` | kernel/lib/vsprintf.c:192-223 | the text of a single directive read back in its base is the argument, for d and i its signed meaning |
| `Directives.CharDirective` | kernel/lib/vsprintf.c:166-173 | conversion c: one character, with blanks behind under - and in front else |
| `Directives.StringDirective` | kernel/lib/vsprintf.c:175-190 | conversion s: as much of the string as the precision allows, with blanks on the same sides |
| `Directives.CountDirective` | kernel/lib/vsprintf.c:225-228 | conversion n: writes nothing and stores how much was written before |
| `Directives.OtherDirective` | kernel/lib/vsprintf.c:230-237 | a percent sign writes itself once, and any other character that is no conversion is written behind a percent sign |
| `Directives.CutDirective` | kernel/lib/vsprintf.c:230-237 | a format that ends inside a directive writes a percent sign |
| `Directives.Examples` | kernel/lib/vsprintf.c:192-223 | 255 under %x is ff, and -7 under %+05d is -0007 |
| `Vsprintf.SkipAtoi` | kernel/lib/vsprintf.c:10-15 | reads a decimal number and stops at the first other character |
| `Vsprintf.ReadFlags` | kernel/lib/vsprintf.c:110-129 | reads the flags |
| `Vsprintf.ReadWidth` | kernel/lib/vsprintf.c:131-142 | reads the width; a star takes an argument and stays |
| `Vsprintf.ReadPrecision` | kernel/lib/vsprintf.c:144-156 | reads the precision |
| `Vsprintf.ReadQualifier` | kernel/lib/vsprintf.c:158-163 | skips a qualifier |
| `Vsprintf.StarStays` | kernel/lib/vsprintf.c:135-153 | a star is met again as the conversion character |
| `Vsprintf.ReadDirective` | kernel/lib/vsprintf.c:110-165 | the whole directive as parsed |
| `Vsprintf.PutChar` | kernel/lib/vsprintf.c:166-173 | conversion c |
| `Vsprintf.CopyString` | kernel/lib/vsprintf.c:186-187 | copies the characters of a string |
| `Vsprintf.PutText` | kernel/lib/vsprintf.c:183-189 | a clipped string in its field |
| `Vsprintf.PutString` | kernel/lib/vsprintf.c:175-190 | conversion s; a precision clips |
| `Vsprintf.PutConversion` | kernel/lib/vsprintf.c:165-223 | every conversion that writes an argument; what each writes is the subject of `NumberDirective`, `CharDirective` and `StringDirective` |
| `Vsprintf.PutOne` | kernel/lib/vsprintf.c:165-238 | one directive, among them n, percent and unknown characters |
| `Vsprintf.PutDirective` | kernel/lib/vsprintf.c:110-238 | one directive from percent sign to its end, a format that ends inside one included |
| `Vsprintf.Vsprintf` | kernel/lib/vsprintf.c:90-242 | vsprintf writes exactly what the parsed format renders to and a NUL, returns the count, makes the stores of n, and reads nothing behind the format's NUL; what the format renders to is told by `FormatSplits` and the lemmas on directives |
| `InitrdLayout.DecodeEncode` | tools/make_initrd.c:14-33 | a header written is the header read |
| `InitrdLayout.ConcatAt` | tools/make_initrd.c:41-48 | contents stand where the running offset says |
| `InitrdLayout.PackedBytes` | tools/make_initrd.c:13-48 | a packed image byte by byte: the count, and for each file the magic number, the name and its NUL, the place and the length, least significant byte first, and the contents at that place |
| `MakeInitrd.NamedReads` | tools/make_initrd.c:21-22 | the name reads back, whatever the field held before |
| `MakeInitrd.FillHeaders` | tools/make_initrd.c:19-34 | the loop over the command line; fails exactly when a file is missing |
| `MakeInitrd.Pack` | tools/make_initrd.c:10-54 | the image holds every file under its name |
| `InitrdFs.StrCpy` | kernel/lib/string.c:38-44 | copies the characters and not the NUL |
| `InitrdFs.StrCmp` | kernel/lib/string.c:31-36 | zero exactly for equal strings |
| `InitrdFs.MemCpy` | kernel/lib/string.c:3-10 | copies exactly the bytes asked for |
| `InitrdFs.ReadCountClamps` | kernel/fs/initrd.c:15-24 | the clamp at the end of the file is right if and only if the end asked for does not wrap round to within the file, and where it is wrong the size asked for is handed out |
| `InitrdFs.Ramdisk.constructor` | kernel/fs/initrd.c:5-13 | before mounting there are no nodes |
| `InitrdFs.Ramdisk.Relocate` | kernel/fs/initrd.c:79-80 | exactly the offset of one header becomes an address |
| `InitrdFs.Ramdisk.InitInitrd` | kernel/fs/initrd.c:50-89 | one node per header with its name, length and number; fails exactly on a missing magic number |
| `InitrdFs.Ramdisk.Finddir` | kernel/fs/initrd.c:41-48 | the directory /dev exactly for "dev" in the root, nothing exactly when no node has the name, else the first file of that name |
| `InitrdFs.Ramdisk.Readdir` | kernel/fs/initrd.c:26-39 | the listing, in the shared entry |
| `InitrdFs.Ramdisk.Read` | kernel/fs/initrd.c:15-24 | the bytes of the file from the relocated address |
| `InitrdFs.PackedMounts` | kernel/fs/initrd.c:76-82 | what is packed can be mounted, if and only if no name is empty |
| `InitrdFs.ListingFinds` | kernel/fs/initrd.c:26-48 | the listing names "dev" and then every packed file once, and what it names is found |
| `InitrdFs.PackedFound` | kernel/fs/initrd.c:41-48 | a packed file is found under its name |
| `InitrdFs.LookupAnswers` | kernel/fs/initrd.c:41-48 | when a lookup finds /dev, when it finds nothing and which file it finds, in either directory |
| `InitrdFs.PackedOrNot` | kernel/fs/initrd.c:41-48 | in a mounted ramdisk a name is found, in either directory, exactly if a file was packed under it, and then it is the first of that name |
| `InitrdFs.DevListing` | kernel/fs/initrd.c:26-39 | /dev shares its callback with the root: it lists the same files at the same indices, and nothing at index 0 |
| `InitrdFs.PackedFetched` | kernel/fs/initrd.c:17-22 | the address in the header leads to the packed contents |
| `InitrdFs.PackedMountedRead` | tools/make_initrd.c:13-48 | pack, mount, find and read gives the bytes packed, cut off at the end of the file, and none from behind it |

## Left out

- TLB, cr0, cr3 and invlpg: the walk always reads the current tables.
- Port input and output, interrupts, descriptor tables, the boot code, the keyboard and the monitor: hardware plumbing.
- ELF loading, symbol lookup, the diagnostic functions, locks: no property harder than those here.
- The rest of kernel/init/main.c: no part of it but the order of the memory managers is modelled.
- fork: it needs a model of stacks and return addresses; what it does to memory is `CloneDirectory` of the active directory.
- Machines.Machine.PmmCollectPages: the record layout of the boot memory map (section 3.3 of the Multiboot Specification) is abstracted to a list of regions, page aligned and disjoint.
- Machines.Machine.CopyPage: the arguments in the order intended; the flag bits that the C call leaves in the first are dropped.
- Machines.Machine.CloneEntry: as `CopyPage`, the arguments in the order intended.
- Machines.Machine.CloneTable: as `CopyPage`, the arguments in the order intended.
- Machines.Machine.CloneSlot: as `CopyPage`, the arguments in the order intended.
- Machines.Machine.CloneSlots: as `CopyPage`, the arguments in the order intended.
- Machines.Machine.FillClone: as `CopyPage`, the arguments in the order intended.
- Cloning.CloneEnds: as `CopyPage`, the arguments in the order intended.
- Lifecycle.PrivatePageCopied: as `CopyPage`, the arguments in the order intended.
- Lifecycle.CloneShowsSource: as `CopyPage`; that a page reads the same is stated for frames in use other than the active directory and the table of slot 1021, which change while the mounts are in place.
- Machines.Machine.CloneDirectory: the record of the new directory comes from the kernel heap, which is modelled separately; requires that the mount slots of the source show no free frame, which holds whenever `AtRest` does (`AtRestInUse`): `InitVmm` ensures it, and `PmmAllocPage`, `PmmFreePage`, `PmmCollectPages`, `Map`, `Unmap`, `AllocateRange`, `AllocateStack`, `CloneDirectory`, `DestroyDirectory`, `Kmalloc` and `Kfree` ensure that it is kept; of the one slot that shows the directory being built, when the active directory is cloned, only the table and its price are stated.
- Machines.Machine.AllocateStack: sizes up to the 256 MB of the region, and not the case of `StackPlaceElse`, in which the directory's own entries would be overwritten.
- Machines.Machine.FindFreeRange: requires that no sum of addresses wraps round 2^32.
- Sched.Scheduler.DestroyTask: called by schedule only for tasks without threads, so its loop over threads never runs; destroy_directory is reduced to the name of the directory, its frames and the panic for want of a mount point are the subject of `DestroyDirectory`.
- Sched.Scheduler.SwitchContext: the stack, and what else the heap has put where a destroyed record was.
- Sched.Scheduler.ScheduleAddTask: as `ListPushBack`, requires a free slot in the list.
- Sched.Scheduler.TaskAddThread: as `ListPushBack`, requires a free slot in the list.
- Lists.CursorList.ListPushBack: growing the list, which the source never does, and writing past its slots, which it does when the list is full.
- The scheduler's lists are values in a map, not `CursorList` objects: aliasing between lists is not captured.
- The bytes of heap headers and payloads: headers are records by address, so a program that writes outside its payload is not captured; thread and task records are likewise names.
- KHeaps.KHeap.Kmalloc: requires that adding the header size does not wrap round 2^32.
- kmalloc_zero: the contents of payloads are not modelled.
- Vsprintf.SkipAtoi: numbers in a format are unbounded, where the source overflows an int.
- Vsprintf.Vsprintf: the buffer must be large enough, the strings it prints lie elsewhere, and arguments are 32-bit words in order.
- InitrdFs.Ramdisk.InitInitrd: requires headers inside the image and names that are not empty and have an end within their field; the source checks neither.
- InitrdFs.Ramdisk.Read: requires that the end asked for does not wrap round, see `ReadCountClamps`.
- InitrdFs.PackedMountedRead: requires that the end asked for does not wrap round, see `ReadCountClamps`.
- InitrdFs.StrCpy: requires a source string that is not empty; for an empty one the source copies its NUL and reads on.
- MakeInitrd.FillHeaders: as `Pack`, at most 64 names shorter than 64 bytes.
- MakeInitrd.Pack: at most 64 names shorter than 64 bytes, less than 4 GB in all; a file read the second time is taken to be what it was the first time.
- Diverging runs: `schedule` with a waiting thread at the cursor repeats without change; the model ends it with an outcome.
