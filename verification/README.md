# LightWeightOS: file system, memory and scheduling

This project models the core of a small teaching kernel and proves what its
parts keep over every run. The code is imperative, and so is the model where
the code is: classes hold the fields the kernel updates in place, loops are
loops, and every method is proved against a function or a relation on values,
about which the further results are proved.

## What is modelled

**The FAT16 file layer** (FatTable, FatLayout, FatVolume, FatAlloc, FatCursor,
FatFile, FatDir, FatStore, FatSystem, FatLost, FatUnlink; layout as in Microsoft's
FAT specification, sections "FAT Data Structure" and "FAT Directory Structure"). The
disk is a sequence of bytes read and written by sectors, and one buffer is shared
by cached table and directory sectors and uncached file data. A ghost field says
what the bytes mean: table, root directory, data region. Above it a file is a
start cluster, a size and a cursor that must follow the chain; a chain may end in
any mark a host writes, and only the last cluster an append has just linked must
hold this kernel's own. The runs of FatSystem open, read, append, close and remove
files by their names, and are proved to be runs of an ideal directory (FatStore)
that knows only names and bytes. Points where the code is less than one might
expect, kept as they are:

- an append needs one free cluster more than its bytes fill when it ends at a
  cluster end; without it the data is written but the cursor stays behind, and
  FatFile.FatfsWrite says exactly when that happens (FatFile.StuckExample);
- new clusters are linked at the cursor, so a spare linked before can be cut off
  and stays allocated. FatLost.StepLoses says exactly which calls lose a cluster,
  and FatLost.LostExample is four appends of which the last loses one;
- a write always adds to the size, so its contract is for appends;
- unlinking writes an END mark, which hides later entries until a new file takes its
  place (FatStore.UnlinkHides, FatStore.CreateShowsAgain, FatDir.UnlinkHidesExample);
- a name whose first byte is the mark of a free entry can be created but not found
  (FatDir.FoundAfterCreate);
- unlinking frees what the entry says and does not ask whether the file is open,
  but an open file's entry is written only when it is closed. A truncating open
  frees the chain and leaves the old start in the entry; if another file is given
  that cluster, unlinking the first frees the second's chain from there on while it
  is open and intact (FatUnlink.UnlinkOpenExample, with one handle per file). The
  files stay apart exactly when the walk from the start in the entry meets no other
  file's cluster (FatUnlink.UnlinkKeepsInvIff); for a file that is closed, read-only
  or not truncated with its start stored it never does (FatSystem.StoredStartSpares).
  With none lost before, clusters are lost exactly when the file has some and the
  start in the entry is not its own (FatLost.UnlinkOpenLoses). The runs include every
  removal that keeps the files apart.

**Page tables and frames** (Bitmaps, PageTables, FrameCount, MemoryManager,
UserMemory, ArgPassing; two-level tables as in section 4.3 of the Intel Software
Developer's Manual, volume 3A). Frames are sequences of bytes, entries are 32-bit
words in them, a bitmap marks the allocated frames, and a ghost map gives each of
them one role: directory, table of one entry, page of one entry, table of the
kernel, or in nobody's tables. The methods of the memory manager are runs of eight
elementary changes that keep the roles. What an operation needs is counted before
it starts: its pages, and a table for each directory entry of theirs that has
none. The code returns success from memory_alloc_for_page_dir even when frames run
out, and can lose one frame when a page table cannot be had; the contracts say
from the free frames at the call when that happens, and UserMemory.ShortExamples
gives the smallest cases.

**Scheduling** (Tasks, Placement, Scheduler, SchedulerRuns, Sleeping, Locks,
Ticks, Semaphores, ProcessTree, TableLock, TaskManager, Lists). Each stretch of code that
runs with interrupts off is one step of a transition system with any number of
tasks, mutexes and semaphores. Functions in Tasks give the steps, the methods of
TaskManager.Kernel are the imperative code, over the linked lists of Lists with a
run node and a wait node in each task, proved to make them; the runs are sequences
of events in which the current task acts or an interrupt comes. The loops of
sys_wait and sys_exit over the process table can be interrupted between entries,
and between the accesses of one turn that are not protected, so each is a step of
its own and a program counter says where a task is: while it frees a dead child's
memory it may wait for the allocator's mutex, and the child that an exit hands
over may die before it is looked at. A tick whose slice ends can switch away in
its middle; what is left is a step of the task that was switched away. A task
number stands for the task's address; 0 is both the idle task and the null
pointer, and no proof gives it a child.

**Terminal output** (Tty) and **open files** (FileRefs, OpenFiles). Writers share
a ring buffer by a semaphore's tokens; descriptors share files by reference
counts. sys_close drops the count to zero before the file is closed, so another
task's open can take the entry meanwhile: FileRefs.OpenKeepsInvIff states exactly
when that breaks the counts, and FileRefs.RaceExample is a run that gets there.

`dafny verify dfyconfig.toml` checks the whole project.

## Model

| member | source | states |
|---|---|---|
| FatTable.ChainIsAcyclic | source/kernel/fs/fatfs/fatfs.c:37-58 | The clusters a chain visits, whatever mark ends it, are all different, so following `next` never comes back |
| FatTable.SameStartSameChain | source/kernel/fs/fatfs/fatfs.c:37-58 | A start cluster has at most one chain |
| FatTable.FreeFromClears | source/kernel/fs/fatfs/fatfs.c:116-122 | The freeing loop ends on every table, cyclic ones included (each turn lowers the number of entries in use), and for any sequence of different clusters linked one to the next, ending in an entry that is no cluster number, it clears exactly these |
| FatTable.FreeingAChain | source/kernel/fs/fatfs/fatfs.c:116-122 | Freeing a chain, whatever mark ends it, sets exactly its entries to FREE and leaves every other entry |
| FatTable.NoneFree | source/kernel/fs/fatfs/fatfs.c:129-150 | The list of free clusters is empty exactly when no entry of the table is FREE |
| FatTable.TableExample | source/kernel/fs/fatfs/fatfs.c:25-35 | A table of six numbers read as chains, marks and free clusters: cluster numbers are 2 to 0xFFF7, 0 is free, a chain ends at 0xFFF8 and above |
| FatTable.LinkedUnique | source/kernel/fs/fatfs/fatfs.c:131-155 | The linked table is fixed by: each listed cluster points to the next, the last one to the given end, all others as before |
| FatTable.FreeingUndoesLinking | source/kernel/fs/fatfs/fatfs.c:116-163 | Freeing what was just linked from free clusters gives back the table of before |
| FatTable.ChainSpliced | source/kernel/fs/fatfs/fatfs.c:288-297 | Linking a chain of fresh clusters behind element i of a chain gives the first i+1 clusters followed by the fresh ones |
| FatLayout.FlatPatch | source/kernel/fs/fatfs/fatfs.c:517-542 | Writing inside one cluster of a chain of distinct clusters writes the bytes of the file at cluster number times cluster size plus offset, and nowhere else |
| FatLayout.ContentAppended | source/kernel/fs/fatfs/fatfs.c:517-549 | Bytes written behind the last byte of a file make its content the old content followed by them |
| FatLayout.ContentPrefix | source/kernel/fs/fatfs/fatfs.c:288-297 | What is linked behind the clusters that hold the content does not change the content |
| FatVolume.RepresentsOne | source/kernel/fs/fatfs/fatfs.c:83-90 | The bytes of a partition encode one volume only: both tables, the root directory and the data are determined |
| FatVolume.PlacesOnDisk | source/kernel/fs/fatfs/fatfs.c:37-110 | Byte by byte where a volume is: entry k of both table copies, low byte first, the root directory behind them, and the clusters from number 2 on behind that |
| FatVolume.TableStored | source/kernel/fs/fatfs/fatfs.c:79-91 | Writing a cached table sector back at both copies encodes the table with the one entry changed; root directory, data and all other entries stay, and both copies stay equal |
| FatVolume.Fat.BreadSector | source/kernel/fs/fatfs/fatfs.c:12-23 | Whatever was cached, the buffer then holds the sector asked for as it is on the device, and the partition is unchanged |
| FatVolume.Fat.ClusterGetNext | source/kernel/fs/fatfs/fatfs.c:37-58 | The cached read is the entry of the table on the device, INVALID for a cluster that is invalid or outside the table |
| FatVolume.Fat.ClusterSetNext | source/kernel/fs/fatfs/fatfs.c:60-92 | The write through the cache changes exactly one entry, in both table copies; -1 and no change for an invalid cluster; the cache stays coherent |
| FatVolume.Fat.ReadDirEntry | source/kernel/fs/fatfs/fatfs.c:192-203 | Reading an entry through the shared buffer gives the bytes of the root directory |
| FatVolume.Fat.WriteDirEntry | source/kernel/fs/fatfs/fatfs.c:205-218 | Writing an entry changes exactly its 32 bytes of the root directory and nothing else of the volume |
| FatVolume.Fat.ReadPart | source/kernel/fs/fatfs/fatfs.c:467-480 | The buffered read of a part of a cluster gives the bytes of that cluster and leaves the sector cache coherent |
| FatVolume.Fat.WritePart | source/kernel/fs/fatfs/fatfs.c:524-541 | The read-patch-write of a cluster changes exactly the bytes asked for; tables and directory stay and the cache does not go stale |
| FatVolume.Fat.WriteWhole | source/kernel/fs/fatfs/fatfs.c:516-523 | A whole cluster written past the buffer leaves the cached table or directory sector valid |
| FatAlloc.ClusterFreeChain | source/kernel/fs/fatfs/fatfs.c:116-122 | On every table the method ends with the table of the freeing function, data and directory unchanged |
| FatAlloc.ClusterAllocFree | source/kernel/fs/fatfs/fatfs.c:124-163 | All or nothing for every count: with enough free clusters the first of them in ascending order are linked, end in 0xFFF8 and the first one is returned; with too few, INVALID is returned and every entry is as before |
| FatCursor.AllocIsChain | source/kernel/fs/fatfs/fatfs.c:124-157 | What the allocation links is a chain of exactly the first free clusters |
| FatCursor.FreeUndoesAlloc | source/kernel/fs/fatfs/fatfs.c:116-163 | Freeing a freshly allocated chain restores the table |
| FatCursor.FreeAfterGrown | source/kernel/fs/fatfs/fatfs.c:261-300 | Growing a file takes exactly the first of the free clusters and gives none back: the free list is what is behind them, whether or not clusters were cut off |
| FatCursor.WantedCovers | source/kernel/fs/fatfs/fatfs.c:261-280 | The number of clusters asked for is enough for the bytes to come and no more than these bytes alone fill |
| FatCursor.WantedIsLeast | source/kernel/fs/fatfs/fatfs.c:261-280 | The number of clusters asked for is the least that will do, in bytes: for a file that ends at a cluster end the least that holds the new bytes; else none exactly while the bytes leave room in the last cluster, and else the least, at least one, that holds the rest |
| FatFile.CanAppendIff | source/kernel/fs/fatfs/fatfs.c:496-559 | In bytes: an append succeeds if and only if its bytes fit without a cluster more, or fit with the free ones while the cursor is on the chain |
| FatCursor.OthersKept | source/kernel/fs/fatfs/fatfs.c:261-300 | A change confined to one file's clusters and to free ones leaves every disjoint chain a chain, disjoint, and its content byte for byte |
| FatCursor.LostIsKept | source/kernel/fs/fatfs/fatfs.c:293-297 | Clusters allocated when the cursor has already left the chain are linked nowhere and stay allocated; the file, its content and every other entry stay as they were |
| FatFile.ExpandFile | source/kernel/fs/fatfs/fatfs.c:261-300 | It fails with the table as it was when too few clusters are free, fails with the new clusters lost when the cursor has left the chain, and else links them behind the cursor cluster (a fresh file starts with them) |
| FatFile.MoveFilePos | source/kernel/fs/fatfs/fatfs.c:302-322 | The cursor stays the chain element of the new position; when a write fills the last cluster and its mark is the kernel's own, a spare is linked, and it fails without moving exactly when no cluster is free |
| FatFile.FatfsRead | source/kernel/fs/fatfs/fatfs.c:445-494 | From a position not behind the size: returns the content from there on, cut at the size; position and cursor move accordingly and the volume is unchanged |
| FatFile.FatfsReadTwice | source/kernel/fs/fatfs/fatfs.c:445-494 | From a position not behind the size two reads in a row give what one read of the summed length gives |
| FatFile.FatfsWrite | source/kernel/fs/fatfs/fatfs.c:496-559 | An append writes all bytes or none: all of them if and only if they fit without a cluster more, or with the free clusters while the cursor is on the chain; content becomes old content followed by the bytes; the clusters taken are a given number of the first free ones, the chain keeps its clusters up to the cursor and goes on with them; the cursor is left behind exactly in one case |
| FatFile.EnoughSpace | source/kernel/fs/fatfs/fatfs.c:496-559 | With one free cluster more than the bytes fill the append succeeds with the cursor ready for the next one, and takes the clusters asked for and one more exactly when the bytes fill the chain |
| FatFile.TakesFew | source/kernel/fs/fatfs/fatfs.c:261-280 | Whatever the outcome, an append takes at most one cluster more than its bytes fill |
| FatFile.StuckExample | source/kernel/fs/fatfs/fatfs.c:302-322 | A cluster of bytes appended to an empty file with one free cluster: written, and the cursor stays behind |
| FatFile.FreeAfterAppend | source/kernel/fs/fatfs/fatfs.c:496-559 | After an append, successful or not, exactly the clusters it took are no longer free |
| FatFile.ByteByByte | source/kernel/fs/fatfs/fatfs.c:496-559 | Three free clusters are enough to append a cluster of bytes but one, byte by byte, to an empty file |
| FatFile.FatfsSeek | source/kernel/fs/fatfs/fatfs.c:579-615 | Succeeds exactly when the cluster number of the offset is below the chain length (or is 0), sets the cursor to that chain element, and otherwise changes nothing |
| FatFile.AppendThenReadBack | source/kernel/fs/fatfs/fatfs.c:445-615 | For any sequence of appends each of which has, when its turn comes, one free cluster more than its bytes fill, reading back from offset 0 gives the old content followed by all bytes in order |
| FatSystem.HostVolume | source/kernel/fs/fatfs/fatfs.c:32-58 | A volume a host has written, with a chain ended by any value from 0xFFF8 to 0xFFFF, has the invariant of the runs |
| FatSystem.WriteIsAStep | source/kernel/fs/fatfs/fatfs.c:496-559 | What the append method ensures is a step of the whole volume, with its result |
| FatSystem.ReadIsAStep | source/kernel/fs/fatfs/fatfs.c:445-494 | What the read method ensures of a file at its record is a step of the volume |
| FatSystem.OpenIsAStep | source/kernel/fs/fatfs/fatfs.c:390-443 | What opening ensures, truncating and creating included, is a step of the volume, as the entry of a closed file holds the start of its chain; the file it opens is one that reads, seeks and appends can start from |
| FatSystem.CloseIsAStep | source/kernel/fs/fatfs/fatfs.c:561-577 | What closing ensures is the step after which the entry holds start and size |
| FatSystem.UnlinkIsAStep | source/kernel/fs/fatfs/fatfs.c:660-694 | What unlinking ensures of any entry found, a file open or closed or none, is a step of the volume, if what it frees is in no other file; for a file that is closed, read-only or has its start stored nothing more is asked |
| FatSystem.StoredStartSpares | source/kernel/fs/fatfs/fatfs.c:680-690 | From the entry of a file that is closed, read-only or has its start stored, the freeing walk meets exactly the file's own chain and no other file |
| FatSystem.LookupAgrees | source/kernel/fs/fatfs/fatfs.c:390-417 | The scan of the entries finds what the ideal directory finds, up to the END mark |
| FatSystem.StepKeepsInv | source/kernel/fs/fatfs/fatfs.c:390-694 | Opening, truncating, creating, reading, appending, closing and removing (anything whose freeing walk meets no other file, as FatUnlink.UnlinkKeepsInvIff shows to be necessary) keep the chains of distinct files well formed, covering their sizes, and pairwise disjoint, and the entry of every file not being written true to its start and size |
| FatSystem.StepRefines | source/kernel/fs/fatfs/fatfs.c:390-694 | Each call does to the names and contents of all entries what it does to the ideal directory, and gives the result that has |
| FatSystem.RunsRefine | source/kernel/fs/fatfs/fatfs.c:390-694 | Over every run of calls by name, removals of open files included as long as they meet no other file's cluster, the volume keeps this invariant and shows exactly the names, bytes and results of the ideal directory |
| FatDir.ToSfn | source/kernel/fs/fatfs/fatfs.c:165-184 | The loop computes the short name that SfnOfName, SfnOfBase and SfnFoldsCase describe byte by byte |
| FatDir.SfnOfName | source/kernel/fs/fatfs/fatfs.c:165-184 | For base, dot and extension of any lengths the eleven bytes by index: small letters as capitals, the base in the first eight, the extension in the last three, blanks behind each; what a base of nine or ten has more stays where the extension does not reach, and a base of eleven fills the name |
| FatDir.SfnOfBase | source/kernel/fs/fatfs/fatfs.c:165-184 | A name without a dot: its first eleven bytes as capitals, padded with blanks |
| FatDir.SfnFoldsCase | source/kernel/fs/fatfs/fatfs.c:165-190 | No short name has a small letter, and names that differ only in the case of letters have the same one |
| FatDir.FieldBytes | source/kernel/fs/fatfs/fatfs.c:252-259 | Which bytes of an entry hold the start and the size, low byte first |
| FatDir.NewItemFields | source/kernel/fs/fatfs/fatfs.c:220-236 | A new entry by the places of its fields: name, no attributes, no times, start 0xFFF8, which is no cluster, and size 0 |
| FatDir.FoundIff | source/kernel/fs/fatfs/fatfs.c:394-417 | An entry is found if and only if it has the eleven bytes, is neither free nor the end, no end is in front of it, and no entry in front of it that is not free has them |
| FatDir.SlotIff | source/kernel/fs/fatfs/fatfs.c:394-439 | A new entry goes to the first end, or if there is none to the last free entry |
| FatDir.FieldsRoundTrip | source/kernel/fs/fatfs/fatfs.c:252-259 | Size and start cluster written into an entry are read back as they were |
| FatDir.FatfsOpen | source/kernel/fs/fatfs/fatfs.c:390-443 | Finds the first entry of that name in front of the END mark; truncation frees its chain; creation takes the END mark or the last free entry; -1 otherwise, and nothing else of the volume changes |
| FatDir.FatfsClose | source/kernel/fs/fatfs/fatfs.c:561-577 | Stores size and start in the file's own entry, nothing for a read-only file or a bad index |
| FatDir.FatfsUnlink | source/kernel/fs/fatfs/fatfs.c:660-694 | Frees the chain and clears the entry of the first match; -1 and no change without one |
| FatDir.ReopenAfterClose | source/kernel/fs/fatfs/fatfs.c:561-577 | After a close the same name finds the same entry with the size and start stored |
| FatDir.FoundAfterUnlink | source/kernel/fs/fatfs/fatfs.c:680-690 | As the cleared entry is an END mark, afterwards exactly the names found in front of it are still found |
| FatDir.UnlinkHidesExample | source/kernel/fs/fatfs/fatfs.c:680-690 | Two entries: after the first is unlinked the second, still there, is not found |
| FatDir.FoundAfterCreate | source/kernel/fs/fatfs/fatfs.c:428-439 | A new entry is found under its name if and only if the first byte of the name is neither the END mark nor the mark of a free entry |
| FatStore.UnlinkHides | source/kernel/fs/fatfs/fatfs.c:680-690 | In the ideal directory exactly the names in front of a removed one stay visible |
| FatStore.CreateShowsAgain | source/kernel/fs/fatfs/fatfs.c:396-439 | The next file created takes the END mark's place, and the entries behind it are found again with their bytes |
| FatLost.StepLoses | source/kernel/fs/fatfs/fatfs.c:261-694 | With every cluster in use in a file before, that is so after a call if and only if it was not an append that loses some (one that asked for clusters with the cursor not on the last one, or failed though enough were free) nor a removal of a file with clusters whose entry has another start. Of any state: after a call that frees nothing but the named file's clusters it is so if and only if both hold |
| FatLost.RunLoses | source/kernel/fs/fatfs/fatfs.c:261-694 | Over a whole run no cluster is lost if none was at the start and every append and removal met its condition; and only then, if each removal freed the removed file's clusters and no others |
| FatLost.LostExample | source/kernel/fs/fatfs/fatfs.c:261-322 | Appends of 1.5, 0.5, 0.5 and 0.5 clusters to an empty file: the last one cuts off a cluster that no file holds |
| FatLost.UnlinkOpenLoses | source/kernel/fs/fatfs/fatfs.c:680-690 | After unlinking a file, open or not, no cluster is lost if and only if the freeing walk met every cluster in use that no other file has; with none lost before, if and only if the file has no clusters or the entry has its start. With no valid start in the entry its clusters are lost, and it was open for writing |
| FatTable.WalkClears | source/kernel/fs/fatfs/fatfs.c:116-122 | On every table the freeing loop clears exactly the clusters that the walk lists, all of which were in use |
| FatTable.WalkInChain | source/kernel/fs/fatfs/fatfs.c:116-122 | A walk that begins at an element of a chain frees that chain from there on and nothing else |
| FatUnlink.UnlinkKeepsInvIff | source/kernel/fs/fatfs/fatfs.c:660-694 | Unlinking any entry, open or not, keeps all files well formed and apart if and only if the walk from the start in the entry meets no cluster of another file |
| FatUnlink.SparesIff | source/kernel/fs/fatfs/fatfs.c:116-122 | With no cluster lost before, it meets one if and only if the start in the entry is in another file's chain, and then it frees that chain from there on |
| FatUnlink.UnlinkOpenExample | source/kernel/fs/fatfs/fatfs.c:390-694 | After any run that truncates a file with the only cluster, opens an empty one and appends to it, all is in order, and unlinking the first frees the cluster of the second |
| FatUnlink.UnlinkOpenHappens | source/kernel/fs/fatfs/fatfs.c:390-694 | Such a run exists for every cluster size |
| FatUnlink.StaleClose | source/kernel/fs/fatfs/fatfs.c:561-577 | The close of a handle whose file was removed keeps the files and all names and contents in order if and only if its entry by then belongs to no file, or to one being written or with that size and start |
| Bitmaps.Bitmap.GetBit | source/kernel/tools/bitmap.c:16-19 | Not zero exactly when the index is among the set bits |
| Bitmaps.ChangedSets | source/kernel/tools/bitmap.c:21-29 | Changing one bit of a byte changes membership of exactly that index |
| Bitmaps.Bitmap.SetBit | source/kernel/tools/bitmap.c:21-29 | Exactly the indices of the stretch that lie below the bit count take the new value |
| Bitmaps.Bitmap.AllocClear | source/kernel/tools/bitmap.c:35-62 | For one bit: the lowest clear index is set and returned, or -1 when all are set; longer stretches exactly as the loop checks them, the last bit unchecked |
| PageTables.AddressParts | source/kernel/include/cpu/mmu.h:56-64 | Directory index, table index and offset of a virtual address determine it and are determined by it |
| PageTables.UserHalf | source/kernel/include/core/memory.h:14 | The user half of a directory is the addresses from 0x80000000 on |
| PageTables.EntryFields | source/kernel/include/cpu/mmu.h:66-76 | Frame address, present bit and low permission bits of an entry built from a frame and permissions |
| PageTables.EntryIs | source/kernel/core/memory.c:74-92 | An entry written is the frame above twelve bits that are the permissions with the present bit set |
| PageTables.PagesDistinct | source/kernel/core/memory.c:74-92 | Two present pages of any address spaces that share a frame are the same page of the same address space |
| PageTables.StepKeepsInv | source/kernel/core/memory.c:50-276 | Claiming, freeing, making a directory or table, mapping, unmapping, writing and dropping an address space each keep one role per frame, and keep the kernel's tables |
| PageTables.RunsKeepOwnership | source/kernel/core/memory.c:50-276 | Over every run of these steps each allocated frame plays one role and kernel tables are never freed |
| PageTables.DirectoriesOpen | source/kernel/core/memory.c:50-72 | Over every run each present user entry of a directory has its write and its user bit set |
| PageTables.UserAccess | source/kernel/core/memory.c:50-92 | With the bits of both levels, user code can read a page exactly when its table entry is present with the user bit, and write it exactly when that also has the write bit |
| PageTables.ReachedInv | source/kernel/core/memory.c:19-348 | Whatever state the methods of the memory manager reach, each ensuring that it is reached by the elementary changes, has the invariant and the kernel's tables |
| PageTables.ReachableIsAllocated | source/kernel/core/memory.c:50-276 | No free frame is reachable from a live directory, by either half |
| FrameCount.FullIsNoneFree | source/kernel/core/memory.c:19-31 | No frame is free exactly when as many are owned as are managed |
| FrameCount.PagesHadIs | source/kernel/core/memory.c:161-183 | The number of pages that can be had is the only one that fits with its missing tables while one more does not, and it is all of them exactly when all fit |
| MemoryManager.Memory.AddrAllocPage | source/kernel/core/memory.c:19-31 | The lowest free frame becomes allocated; 0 exactly when none is free |
| MemoryManager.Memory.AddrFreePage | source/kernel/core/memory.c:33-38 | Exactly that frame becomes free |
| MemoryManager.Memory.FindPte | source/kernel/core/memory.c:50-72 | Finds the table of the address; builds it, zeroed and linked, only when asked to and missing, which takes one frame; the directory entry lets user code write; without a frame nothing changes |
| MemoryManager.Memory.MemoryCreateMap | source/kernel/core/memory.c:74-92 | Maps consecutive unmapped pages to consecutive frames and changes nothing else but tables gained; it succeeds if and only if the directory entries without a table are no more than the free frames; it stops short exactly when it returns an error, and then no frame is free; user code can read and write the pages exactly as the permissions asked for say |
| MemoryManager.Memory.MemoryCreateUvm | source/kernel/core/memory.c:125-138 | A fresh directory with the kernel's lower half and an empty upper half; 0 and no change without a frame |
| MemoryManager.Memory.MemoryDestroyUvm | source/kernel/core/memory.c:211-233 | Frees exactly the directory, tables and pages of the address space |
| MemoryManager.Memory.MemoryCopyUvm | source/kernel/core/memory.c:235-276 | Succeeds if and only if the directory, the pages and the tables with a page are no more than the free frames; then every page has the same low nine entry bits and bytes in a fresh frame, user code can read and write exactly the same pages, the original and all other address spaces are unchanged and nothing is lost; a failed copy gives back everything but at most one frame |
| MemoryManager.FailedCopyUndone | source/kernel/core/memory.c:254-276 | Destroying a half-made copy restores the allocation but for the lost frame |
| MemoryManager.DestroyUndoesCopy | source/kernel/core/memory.c:211-276 | Destroying a finished copy restores the frame allocation exactly |
| UserMemory.MemoryAllocForPageDir | source/kernel/core/memory.c:161-183 | Fresh pages for the stretch, which user code can use as the permissions say, nothing else, and always success reported; all pages are had if and only if they and their missing tables are no more than the free frames at the call; else as many as fit, and one frame is lost exactly when the frames reach for one page more but not for its table |
| UserMemory.ShortExamples | source/kernel/core/memory.c:161-183 | With no free frame a page is missing after a reported success; with one the frame is lost and the page missing as its table cannot be had; with two the page is there |
| UserMemory.MemoryFreePage | source/kernel/core/memory.c:198-209 | A kernel frame is freed; a user page leaves its address space, its frame is free, and every other page of every address space stays |
| UserMemory.SysSbrk | source/kernel/core/memory.c:309-348 | Returns the old end; fresh pages from the old end rounded up on, all that the new end needs if and only if these and their missing tables are no more than the free frames at the call; the pages mapped for the heap are those below the new end if and only if they were before and all were had, none is mapped twice, and user code can read and write each |
| UserMemory.GrowHeap | source/kernel/core/memory.c:309-348 | For any sequence of increments each call returns where the one before left the end, and after the last the heap is in order if and only if it was before the first and the free frames then sufficed for all the pages and their missing tables, however the growth is cut into calls |
| UserMemory.LoadedHeap | source/kernel/core/task.c:483-560 | A new address space is in order for a heap wherever it begins, and stays so when pages are added below its start or behind its limit |
| ArgPassing.MemoryGetPaddr | source/kernel/core/memory.c:278-285 | For a mapped address the physical address of its byte |
| ArgPassing.MemoryCopyUvmData | source/kernel/core/memory.c:287-307 | Bytes copied into an address space that is not active land at their virtual addresses across pages, and no other byte, table or frame changes |
| ArgPassing.CopyArgs | source/kernel/core/task.c:572-595 | The argument area holds header, pointer table and strings, across pages, and nothing outside it changes |
| ArgPassing.ArgsReadBack | source/kernel/core/task.c:572-595 | Reading the image gives back a zero return address, the count, the table address, for each entry the address of its string, and the string with its terminator |
| ArgPassing.ProgramSeesArgs | source/kernel/core/task.c:572-595 | The same through the new page tables, at virtual addresses |
| Lists.List.InsertFirst | source/kernel/tools/list.c:8-19 | The node comes in front of the sequence the links spell out |
| Lists.List.InsertLast | source/kernel/tools/list.c:21-32 | The node comes behind the sequence |
| Lists.List.RemoveFirst | source/kernel/tools/list.c:34-52 | The first node leaves with its links cleared; null on an empty list |
| Lists.List.Remove | source/kernel/tools/list.c:54-80 | Exactly that node leaves, from any place, and the order of the others stays |
| Lists.WalkVisits | source/kernel/tools/list.c:3-6 | Following `next` from the first node visits exactly the sequence |
| Placement.PassPlaced | source/kernel/core/task.c:352-364 | A pass over the sleep list keeps everyone placed |
| Scheduler.StepKeepsInv | source/kernel/core/task.c:205-391 | Every step of the kernel keeps every started task placed, the current task at the head of the ready list, and all slices between 1 and 10 |
| SchedulerRuns.BootInv | source/kernel/core/task.c:156-199 | The state after boot has the invariant |
| SchedulerRuns.PlacementOnRuns | source/kernel/core/task.c:205-391 | Over every run a started task is on exactly one list, at one place, or waits for a child, or is dead; idle runs exactly when the ready list is empty |
| SchedulerRuns.StepSteady | source/kernel/core/task.c:205-325 | Every step but a tick leaves the ready list growing at its end or losing its head, time slices and the ticks of sleepers unchanged |
| SchedulerRuns.TickWait | source/kernel/core/task.c:337-347 | A tick lowers the sum of the slices ahead of a waiting task by exactly one |
| SchedulerRuns.RoundRobin | source/kernel/core/task.c:337-364 | A task at place k of the ready list runs within 10 * k ticks, in every interleaving of yields, blocks, wakes, forks and exits |
| Sleeping.SleepsExactly | source/kernel/core/task.c:352-391 | A sleeper with n ticks to go is asleep until the n-th pass over the sleep list and ready, on the ready list, right after it |
| Sleeping.WakingOrder | source/kernel/core/task.c:352-363 | Sleepers that wake in the same pass become ready in the order they slept |
| Sleeping.TicksRoundUp | source/kernel/core/task.c:385 | The ticks are the milliseconds rounded up, with no tick exactly for 0 and the nine largest 32-bit values |
| Sleeping.SleepKeepsPlacement | source/kernel/core/task.c:366-391 | sys_sleep keeps the placement if and only if there is at least one tick to sleep; otherwise the task is on no list at all |
| Ticks.EveryTickPasses | source/kernel/core/task.c:337-364 | Over every run the passes over the sleep list and the passes owed at the end are the ticks and the passes owed at the start: a tick that switches away forgets nothing |
| Ticks.SleepsInTicks | source/kernel/core/task.c:337-391 | So a sleeper wakes after its number of ticks, up to the passes owed |
| Ticks.SleepCall | source/kernel/core/task.c:337-391 | From the call on: who asks for some milliseconds sleeps for that many tens, rounded up, in ticks |
| Ticks.SliceLedger | source/kernel/core/task.c:337-347 | Over every run a task's slice is ten ticks: what is left follows, modulo ten, from what was left and the ticks that came while it ran |
| Ticks.ForkSlice | source/kernel/core/task.c:433-472 | A new task begins with ten ticks |
| SchedulerRuns.SwitchedRuns | source/kernel/core/task.c:205-235 | Whenever another task runs after a step it is marked as running |
| Locks.StepTickets | source/kernel/ipc/mutex.c:9-49 | Every step does to every mutex what the abstract ticket queue does: join at the end or go one deeper; one level up, or leave from the front |
| Locks.MutexRefinesQueue | source/kernel/ipc/mutex.c:9-49 | Over every run a mutex is that queue; a free one has no waiters, a taken one's owner does not wait |
| Locks.Ledger | source/kernel/ipc/mutex.c:9-49 | What a task holds is what it asked for less what it gave back while it was the owner; an unlock by another task counts for nothing |
| Locks.MutexCounts | source/kernel/ipc/mutex.c:9-49 | From boot on the lock count is the owner's balance, a waiter's balance is one, everyone else's zero |
| Locks.ArrivalOrder | source/kernel/ipc/mutex.c:27-49 | Owners follow one another in the order in which they asked; no third task gets between |
| Semaphores.TokensConserved | source/kernel/ipc/sem.c:8-39 | Count less waiters is the start value plus notifies less waits, and nobody waits beside a token |
| Semaphores.WaitsGranted | source/kernel/ipc/sem.c:8-39 | No more waits go through than tokens and notifies, and exactly as many while someone waits |
| Semaphores.ReleaseOrder | source/kernel/ipc/sem.c:25-39 | Waiters are released in the order in which they blocked |
| ProcessTree.StepView | source/kernel/core/task.c:249-325 | Every step of the kernel is a step of the process table alone, or none |
| ProcessTree.TreeKept | source/kernel/core/task.c:249-325 | Every such step keeps: a used entry's parent is the first task or a living one, a child being reaped is dead and what was noted of it is true, a dying task has no child left |
| ProcessTree.LivesOnRuns | source/kernel/core/task.c:249-325 | Over every run each table entry is born, perhaps adopted, dies once and is reaped once, by its parent at the time, with its own number and status |
| ProcessTree.ReapedIsDead | source/kernel/core/task.c:257-269 | However long freeing its memory takes, the entry a task is about to clear is that of its dead child, with the number and the status it reports |
| ProcessTree.ClearedEntry | source/kernel/core/task.c:261-266 | The entry cleared is as free as at the boot, in every field |
| ProcessTree.ScanSeesAll | source/kernel/core/task.c:249-279 | Over every run a task about to wait for a child has looked at every entry of the table since it entered sys_wait, and none was its dead child when it looked |
| ProcessTree.NoOrphans | source/kernel/core/task.c:295-304 | A zombie has no children |
| ProcessTree.ExitWakesParent | source/kernel/core/task.c:308-324 | After an exit the parent does not wait, nor the first task if it got a dead child, and a woken parent is on the ready list |
| TableLock.OneScanAtATime | source/kernel/core/task.c:249-305 | The tasks in the middle of a scan of the process table are its mutex's owner and waiters, so at most one scans |
| TableLock.StepKeepsHand | source/kernel/core/task.c:293-304 | Between handing a child over and looking at it the entry stays that of a child of the first task, and if it is dead it stays dead, whatever other tasks do |
| TableLock.MovedOnRuns | source/kernel/core/task.c:293-304 | The flag by which an exit decides to wake the first task says, in every interleaving, exactly whether a child it has handed over was dead when it looked, also one that died after the hand-over |
| TaskManager.Kernel.constructor | source/kernel/core/task.c:156-199 | Given the zeroed memory of lists and nodes: only the first task runs, and its run node is the ready list |
| TaskManager.Kernel.Link | source/kernel/tools/list.c:21-32 | A task's node goes behind the others of one list; every other list still spells out its sequence |
| TaskManager.Kernel.Unlink | source/kernel/tools/list.c:54-80 | A task's node leaves its list, the order of the others stays, and the task is on no list |
| TaskManager.Kernel.UnlinkFirst | source/kernel/tools/list.c:34-52 | The task of the first node leaves, and is on no list |
| TaskManager.Kernel.TaskSetReady | source/kernel/core/task.c:205-211 | The node of a task that is on no list is linked in behind all others of the ready list; nothing for idle |
| TaskManager.Kernel.TaskDispatch | source/kernel/core/task.c:327-335 | The task of the first node of the ready list becomes current and running, idle when there is none, and every list stays as it is |
| TaskManager.Kernel.SysSchedYield | source/kernel/core/task.c:232-247 | With others ready the current task goes behind all of them and the second one runs; else nothing changes; everyone stays placed |
| TaskManager.Kernel.SleepPass | source/kernel/core/task.c:352-363 | The loop along the nodes of the sleep list, each `next` fetched before its node moves, does what the closed form of a pass says |
| TaskManager.Kernel.TaskTimeTick | source/kernel/core/task.c:337-364 | One tick: slice, rotation, and the pass now or, when switched away, owed by the task that was; over runs Ticks.EveryTickPasses |
| TaskManager.Kernel.RestOfTick | source/kernel/core/task.c:346-364 | The rest of a tick for a task that was switched away in it |
| TaskManager.Kernel.SysSleep | source/kernel/core/task.c:381-391 | The current task is last on the sleep list with the milliseconds rounded up, through the node the ready list had, and the next one runs; with no ticks it is on no list at all |
| TaskManager.Kernel.MutexLock | source/kernel/ipc/mutex.c:9-25 | On the line of tickets: the current task gets a ticket at the end, or the owner holds one deeper; a task that waits is off the ready list and on the mutex's |
| TaskManager.Kernel.MutexUnlock | source/kernel/ipc/mutex.c:27-49 | On the line of tickets: the owner gives a level back, or leaves and the next in line owns the mutex and is ready; nothing for any other task |
| TaskManager.Kernel.SemWait | source/kernel/ipc/sem.c:8-23 | A token less, or the current task is last among the waiters |
| TaskManager.Kernel.SemNotify | source/kernel/ipc/sem.c:25-39 | The first waiter is released and ready, or there is a token more |
| TaskManager.Kernel.WaitLookAt | source/kernel/core/task.c:253-269 | One turn of the scan: it reports the number and the status of an entry exactly when that is a dead child of the caller, and is a step of the process table that keeps the invariant |
| TaskManager.Kernel.WaitClearEntry | source/kernel/core/task.c:261-266 | The entry of the dead child is free again; nothing else in the process table changes |
| TaskManager.Kernel.WaitSuspend | source/kernel/core/task.c:273-277 | The task waits for a child and is on no list, another one runs, and the process table only shows where it waits |
| TaskManager.Kernel.ExitLookAt | source/kernel/core/task.c:296-304 | One turn of the scan: in the process table a child passes to the first task, or nothing but the place in the scan changes; at the end the table's mutex is given back |
| TaskManager.Kernel.ExitCheckChild | source/kernel/core/task.c:300-303 | The child handed over before counts as dead exactly if it is by now |
| TaskManager.Kernel.ExitFinish | source/kernel/core/task.c:307-324 | The task is dead in the process table with its status and on no list; its parent does not wait afterwards, nor the first task if it has got a dead child |
| TaskManager.Kernel.SysFork | source/kernel/core/task.c:433-472 | In the process table a free entry becomes a living child of the current task, last on the ready list, and its number is returned |
| Tty.Fifo.Put | source/kernel/dev/tty.c:28-42 | -1 and no change when full, else the character is last in the queue |
| Tty.Fifo.Get | source/kernel/dev/tty.c:44-58 | -1 and no change when empty, else the first character leaves |
| Tty.StepKeepsInv | source/kernel/dev/tty.c:91-113 | Free tokens, tokens held by writers and queued characters always sum to 512, so a put with a token finds room |
| Tty.ExpandIs | source/kernel/dev/tty.c:92-104 | What a program sends is the one string in which, with the flag, every line feed has a carriage return directly in front and which gives the input back when one is taken away in front of each; without the flag the input itself |
| Tty.OutputIsFaithful | source/kernel/dev/tty.c:81-116 | For any number of writers and any interleaving no put fails, what came out of each writer, then what is queued, then what it has left shows exactly what it was given, in order, and so does what came out alone once it has finished; tokens, held ones and queued characters are 512 |
| OpenFiles.FileTable.FileAlloc | source/kernel/fs/file.c:8-23 | The first entry without a reference gets one; none exactly when there is no such entry |
| OpenFiles.FileTable.FileFree | source/kernel/fs/file.c:25-31 | Drops a reference if there is one |
| OpenFiles.FileTable.SysOpen | source/kernel/fs/fs.c:81-129 | Takes an entry no descriptor refers to and the first empty descriptor; a full table or a refusal of the file system leaves everything as before |
| OpenFiles.FileTable.SysDup | source/kernel/fs/fs.c:260-281 | Succeeds if and only if the descriptor is open and another is empty; then the first empty one refers to the same file, with one more reference; else nothing changes |
| OpenFiles.FileTable.SysClose | source/kernel/fs/fs.c:195-220 | The descriptor is cleared and the reference dropped; the file system is told exactly for the last one; -1 without a file |
| OpenFiles.FileTable.CopyOpenedFiles | source/kernel/core/task.c:422-431 | The child gets every descriptor and each file as many references more |
| OpenFiles.FileTable.CloseAll | source/kernel/core/task.c:282-291 | All descriptors of the task are cleared and every count is still the number of descriptors |
| FileRefs.StepKeepsInv | source/kernel/fs/fs.c:195-220 | Each half of a close, and every other call that does not take an entry in its last close, keeps counts equal to descriptors and opens and closes alternating |
| FileRefs.CountsOnRuns | source/kernel/fs/fs.c:81-281 | Over all such runs, with no close under way, each count is the number of descriptors, and the file system was told to close the file once per open, with the last descriptor |
| FileRefs.OpenKeepsInvIff | source/kernel/fs/fs.c:207-217 | An open during a close keeps the invariant if and only if it does not take the entry whose last close is under way |
| FileRefs.OpenedFileLost | source/kernel/fs/fs.c:207-217 | If it does, the close drops the new reference: the entry looks free while a descriptor refers to it |
| FileRefs.RaceExample | source/kernel/fs/fs.c:207-217 | A run that gets there: one task closes its only file while another opens one |

## Left out

- Errors of the disk: reads and writes of sectors succeed, so the error returns after a failed dev_read or dev_write are not modelled.
- Mounting: the geometry is given, with two table copies, power-of-two clusters of at most one page, a table of at most 0xFFFF entries that fits its data region.
- Several handles on one file, overwriting in the middle of a file, listing directories, file types and dates: a created entry's uninitialised DIR_CrtTimeTeenth byte is a parameter.
- FatSystem.UnlinkIsAStep: the handle of a removed file is not used in the runs; FatUnlink.StaleClose says what its close does, and reads and writes through it are not modelled.
- FatFile.FatfsRead: the position is at most the size. A seek within the last cluster can set it behind, where the source's unsigned subtraction of the position from the size wraps.
- FatFile.FatfsReadTwice: the starting position is at most the size, as for FatFile.FatfsRead.
- FatSystem.WriteIsAStep: stands for writes with the position at the size. The runs know no cursors, so that the write after an append that left the cursor behind (FatFile.StuckExample), or after a seek or read that left it elsewhere, is not this step.
- FatFile.FatfsWrite: only appends (position equal to size), because the code adds to the size on every write.
- Unsigned wrap-around of file sizes and positions at 32 bits; sizes are unbounded until they are stored in an entry.
- Klib.Up2: the rounding mask of the source is modelled as the division it is for power-of-two bounds.
- Building the kernel's own page tables and sizing memory at boot: the state memory_init leaves is the precondition of the constructor of MemoryManager.Memory. Accessed and dirty bits, cache flushing and the mutex around the frame bitmap are left out; each memory call is one step.
- MemoryManager.Memory.MemoryCreateMap: returns 0 on success, which its callers rely on; the source has no return statement there.
- Bitmaps.Bitmap.AllocClear: models the search for clear bits only, the one its callers use.
- UserMemory.SysSbrk: heap ends do not wrap around 32 bits, and the increment is not negative, as the source asserts.
- Loading of ELF segments and the rest of execve: page allocation and argument passing are the parts modelled.
- TaskManager.Kernel.SysFork: only the insertion into the process table and the ready list; address space and descriptors are copied by MemoryCopyUvm and CopyOpenedFiles. That alloc_task does not reserve its slot, and that the directory task_init makes is dropped, are not modelled.
- The entries of task_list, names, selectors, stacks and register contents of tasks: no modelled code depends on them.
- Liveness of sys_wait: a child may exit between the scan and the block, so no claim is made that a waiting parent always has a living child.
- Scheduler.Can: a task sleeps at least one tick, as the system call library sees to for 0; Sleeping.SleepKeepsPlacement says what happens otherwise. The first task does not exit: its parent is null in the source, which the exit would dereference.
- The list of all tasks and its nodes, which no modelled code walks. The beginning and the end of a scan of the process table in sys_wait and sys_exit are TaskManager.Kernel.MutexLock and MutexUnlock on the table's mutex; the program counters are part of the model only.
- TaskManager.Kernel.WaitClearEntry: the clearing of the entry only; freeing the dead child's frames is MemoryDestroyUvm, and the time it takes a step of its own in the runs.
- FatSystem.OpenIsAStep: opening an entry that is no file (a directory, a volume label) is not part of the runs.
- OpenFiles.FileTable.SysOpen: needs a free entry in the file table, since the source frees a null pointer without one.
- OpenFiles.FileTable: each call at once. The decrement itself is taken as indivisible; FileRefs splits sys_close into its two halves.
- Terminal input, console drawing, escape sequences and the keyboard; the terminal's output flag is a parameter and does not change during a write.
- Path parsing, mounting by prefix, formatted output, string helpers and descriptor bit packing: easy or incidental.
