# Nachos, modelled and proved in Dafny

Nachos is a teaching operating system: a simulated MIPS machine, a multi-threaded kernel, a file system on a
simulated disk, and user processes. This project models the parts of it whose correctness is not evident from
reading one function, and proves what they promise.

* **The file system** (`Bitmap`, `Storage`, `OpenFile`, `Directory`, `FileSystem`): the free map and the directory are
  files on the disk they describe. Over every sequence of Format, Create, Remove and WriteAt the free map marks exactly
  the sectors in use and no sector has two owners; the disk refines a map from file names to byte sequences; Create is
  all or nothing and Remove undoes it.
* **Threads and semaphores** (`Threads`): a machine whose steps are the sections that run with interrupts off. In every
  run each thread is in exactly one place, no assertion of the scheduler fails, wakeups are not lost, and dispatch is
  first come, first served.
* **Monitors and devices** (`SynchList`, `SynchDisk`): in every interleaving the synchronized list delivers each element
  once and in order and does not lose a signal, and each call of the synchronous disk returns only after its own
  completion.
* **The process table** (`ProcessTable`): in every interleaving of Exec, Join and Exit, when exactly Join returns the
  exit code of the process it was called for.
* **Interrupts and disk timing** (`Interrupt`, `DiskTiming`): firing order, a lateness bound, a termination measure for the
  firing loop, tick accounting; latency bounds and the soundness of the track buffer.
* **The machine** (`Multiply`, `Paging`, `Unaligned`, `PairOutcomes`, `Machine`, `AddrSpace`): the shift-and-add multiplication, the pairs
  of unaligned loads and stores with the load delay slot and interrupts, address translation, and memory isolation of
  processes over whole runs of creation, loading, destruction and stores, as far as the loader permits it.
* **Containers** (`LinkedList`, `HashTable`): the pointer-linked list refines a sequence, the self-expanding hash table a map.

Modules named `...Spec` hold the values, functions and theorems; the modules with classes hold the code, updated in
place as the source does, with every method proved against them. A class invariant kept by every method is the form
that "over all runs" takes for sequential code. For concurrent code it is a theorem about all finite runs of a machine,
and the methods of the class beside it are the machine's steps, cut where another thread may run.

Five properties one would expect turned out to need a condition. Each has its exact condition, and an input that
breaks it:

* **Join** returns the code of the process it checked if and only if nobody joins a process that has already been
  joined (`JoinRightIff`). A second Join can find the slot taken over by another process (`JoinAgainGoesWrong`).
* **An LWL/LWR pair** loads the word, whatever is in memory, if and only if no delayed load into the base register is
  under way that changes it (`LoadPairRightIff`; `LoadPairGoesWrong` has one). **An SWL/SWR pair** stores the word if and
  only if its second store, which sees the registers after such a load, lands on its place, or within an aligned word, and
  writes the bytes the word has there (`StorePairRightIff`, `StorePairValueIff`; `StorePairGoesWrong` has one that does not).
* **The track buffer**: a sector counted as buffered has passed the head by the next sector boundary; by the time of
  the request itself it has if and only if `BufferedBeforeNow`'s count says so.
* **Frames**: the kernel's bitmap has 512 bits for 128 frames. A new space gets only frames that exist if and only if
  enough real frames are free (`AllocateInMemoryIff`); otherwise it is accepted and given frames beyond memory
  (`AllocateOutsideMemory`).
* **Loading a program** copies a page's worth of file to each frame *and the segment's virtual address beyond it*. Whatever
  the file holds, this disturbs no other process if and only if every byte copied lands in a frame that was free
  (`LoadIsolatedIff`), as it does for segments at address 0 (`ZeroAddressLands`); there is a run from boot in which it
  overwrites another process (`LoaderDisturbsOther`).

`dafny verify dfyconfig.toml` checks the whole project.

## Model

| member | source | states |
|---|---|---|
| `Multiply.ShiftDouble` | 21127047_21127183_21127638_Source/machine/mipssim.cc:808-812 | shifting the double word left doubles it, as long as the result fits 64 bits |
| `Multiply.AddDouble` | 21127047_21127183_21127638_Source/machine/mipssim.cc:801-804 | adding with carry adds the 64-bit values |
| `Multiply.NegateDouble` | 21127047_21127183_21127638_Source/machine/mipssim.cc:818-824 | complement and increment with carry negates the signed 64-bit value, also when the low word becomes 0 |
| `Multiply.SignedProduct` | 21127047_21127183_21127638_Source/machine/mipssim.cc:779-791 | the signed product is the product of the magnitudes with the sign of the operands, including the most negative word |
| `Multiply.UnsignedLoop` | 21127047_21127183_21127638_Source/machine/mipssim.cc:793-814 | the loop computes the 64-bit product for every pair of words, despite its early exit and the arithmetic right shift of a |
| `Multiply.Mult` | 21127047_21127183_21127638_Source/machine/mipssim.cc:771-828 | hi:lo is the exact 64-bit product for all operands, signed and unsigned |
| `ListSpec.InsertKeepsSorted` | 21127047_21127183_21127638_Source/lib/list.cc:232-260 | sorted insertion keeps the list sorted, for any total preorder |
| `ListSpec.InsertSplits` | 21127047_21127183_21127638_Source/lib/list.cc:232-260 | insertion puts the item after every element not greater and leaves the others in order: it is stable |
| `ListSpec.InsertAddsOne` | 21127047_21127183_21127638_Source/lib/list.cc:232-260 | insertion adds exactly the new item to the multiset |
| `LinkedList.List.Append` | 21127047_21127183_21127638_Source/lib/list.cc:73-89 | the chain of elements stays acyclic and in step with first, last and numInList, and stands for the old sequence and the item |
| `LinkedList.List.Prepend` | 21127047_21127183_21127638_Source/lib/list.cc:96-112 | the chain stands for the item and the old sequence |
| `LinkedList.List.RemoveFront` | 21127047_21127183_21127638_Source/lib/list.cc:123-142 | returns the first item and leaves the rest |
| `LinkedList.List.Remove` | 21127047_21127183_21127638_Source/lib/list.cc:149-178 | takes out the item's one occurrence and keeps the others in order |
| `LinkedList.List.IsInList` | 21127047_21127183_21127638_Source/lib/list.cc:185-197 | true if and only if the item is in the sequence |
| `LinkedList.List.Insert` | 21127047_21127183_21127638_Source/lib/list.cc:232-260 | the chain stands for the sorted insertion into the old sequence |
| `PendingSpec.InsertOrdered` | 21127047_21127183_21127638_Source/machine/interrupt.cc:256-266 | scheduling keeps the pending list ordered by due time and, for equal times, by order of scheduling |
| `PendingSpec.InsertNotDue` | 21127047_21127183_21127638_Source/machine/interrupt.cc:256-266 | what a handler schedules is not yet due, so it does not lengthen the firing loop |
| `PendingSpec.ScheduleKeepsHistory` | 21127047_21127183_21127638_Source/machine/interrupt.cc:256-266 | scheduling keeps the history: fired before pending in order, nothing lost or duplicated, everything fired on time |
| `PendingSpec.FireKeepsHistory` | 21127047_21127183_21127638_Source/machine/interrupt.cc:315-317 | firing the front entry keeps the history, provided it is due and less than SystemTick late |
| `PendingSpec.LaterKeepsHistory` | 21127047_21127183_21127638_Source/machine/interrupt.cc:153-160 | letting time pass keeps the history |
| `InterruptSimulator.Interrupt.Schedule` | 21127047_21127183_21127638_Source/machine/interrupt.cc:256-266 | the interrupt becomes pending at its due time and nothing else changes |
| `InterruptSimulator.Interrupt.FireFront` | 21127047_21127183_21127638_Source/machine/interrupt.cc:315-317 | runs the handler of the entry due first; whatever that schedules, one entry fewer is due |
| `InterruptSimulator.Interrupt.FireAllDue` | 21127047_21127183_21127638_Source/machine/interrupt.cc:313-320 | the loop ends, with every pending entry strictly in the future |
| `InterruptSimulator.Interrupt.AdvanceTime` | 21127047_21127183_21127638_Source/machine/interrupt.cc:153-160 | system mode costs 10 system ticks, other modes 1 user tick |
| `InterruptSimulator.Interrupt.CheckIfDue` | 21127047_21127183_21127638_Source/machine/interrupt.cc:280-322 | fires everything due, at or after its time and less than SystemTick late, and advances the clock only if asked to and only to the next due time |
| `InterruptSimulator.Interrupt.OneTick` | 21127047_21127183_21127638_Source/machine/interrupt.cc:147-176 | time advances by the tick of the mode, all that became due fires in this tick, and a yield follows exactly when a handler has asked for one; totalTicks stays the sum of idle, system and user ticks |
| `InterruptSimulator.Interrupt.SetLevel` | 21127047_21127183_21127638_Source/machine/interrupt.cc:123-136 | time advances only when interrupts go from off to on |
| `InterruptSimulator.Interrupt.Idle` | 21127047_21127183_21127638_Source/machine/interrupt.cc:207-227 | with something pending, time jumps to the next due time and what is due fires exactly on time; with nothing pending the machine halts |
| `DiskTiming.SeekTicks` | 21127047_21127183_21127638_Source/machine/disk.cc:179-182 | seeking takes a multiple of the time of one sector, and none exactly when the track stays the same |
| `DiskTiming.SeekGrows` | 21127047_21127183_21127638_Source/machine/disk.cc:179-182 | each track further away costs one SeekTime more, in either direction |
| `DiskTiming.TimeToSeek` | 21127047_21127183_21127638_Source/machine/disk.cc:176-191 | seek and rotational wait end on a sector boundary, the wait less than one sector |
| `DiskTiming.ModuloDiff` | 21127047_21127183_21127638_Source/machine/disk.cc:199-206 | the forward distance between two sectors of a track |
| `DiskTiming.ComputeLatency` | 21127047_21127183_21127638_Source/machine/disk.cc:229-250 | latency lies between one sector and a fixed maximum and never exceeds the unbuffered latency |
| `DiskTiming.UnbufferedEndsAtSector` | 21127047_21127183_21127638_Source/machine/disk.cc:246-249 | an unbuffered request ends just as the sector has passed under the head, the first time it does after the seek |
| `DiskTiming.BufferedIff` | 21127047_21127183_21127638_Source/machine/disk.cc:234-244 | the shortcut is taken if and only if it is a read on the same track of a sector that passes completely between bufferInit and the next sector boundary |
| `DiskTiming.LatencyCases` | 21127047_21127183_21127638_Source/machine/disk.cc:229-250 | a request costs one sector's transfer in exactly the case of the track buffer, and the wait for the sector otherwise |
| `DiskTiming.BufferedBeforeNow` | 21127047_21127183_21127638_Source/machine/disk.cc:234-244 | whether the sector has passed already at the time of the request: the exact condition, and a request for which it has not |
| `DiskTiming.BufferInitMeaning` | 21127047_21127183_21127638_Source/machine/disk.cc:258-268 | in every run, bufferInit is when the head came to rest on the present track |
| `DiskTiming.ShortcutIsSound` | 21127047_21127183_21127638_Source/machine/disk.cc:229-268 | in every run, the shortcut is taken only for a sector that passes completely after the head came to its track and before the request is done |
| `DiskTiming.Disk.Start` | 21127047_21127183_21127638_Source/machine/disk.cc:113-151 | a request makes the disk active and its head and completion time those of the timing model |
| `DiskTiming.Disk.UpdateLast` | 21127047_21127183_21127638_Source/machine/disk.cc:258-268 | bufferInit moves exactly when the track changes |
| `Hashing.InsertRepresents` | 21127047_21127183_21127638_Source/lib/hash.cc:116-121 | putting an item into its hash bucket adds exactly it to the map the buckets represent |
| `Hashing.RemoveRepresents` | 21127047_21127183_21127638_Source/lib/hash.cc:208-223 | taking an item out of its bucket removes exactly its key |
| `Hashing.MoveKeepsSplitting` | 21127047_21127183_21127638_Source/lib/hash.cc:145-150 | moving one item from the old buckets to the new loses and duplicates nothing |
| `Hashing.SplittingDone` | 21127047_21127183_21127638_Source/lib/hash.cc:134-153 | once the old buckets are empty the new ones represent the same map |
| `Hashing.IterationIsExact` | 21127047_21127183_21127638_Source/lib/hash.cc:331-360 | going through the buckets meets every item of the map once, and nothing else |
| `Hashing.HashTable.constructor` | 21127047_21127183_21127638_Source/lib/hash.cc:28-52 | a new table is empty |
| `Hashing.HashTable.Insert` | 21127047_21127183_21127638_Source/lib/hash.cc:108-124 | adds the item to the map; the table grows fourfold exactly when there were three items per bucket, so items never outnumber ResizeRatio times the buckets |
| `Hashing.HashTable.ReHash` | 21127047_21127183_21127638_Source/lib/hash.cc:134-153 | four times the buckets, the same map and the same number of items |
| `Hashing.HashTable.Find` | 21127047_21127183_21127638_Source/lib/hash.cc:191-198 | finds the item of the key, if and only if the map has it |
| `Hashing.HashTable.FindInBucket` | 21127047_21127183_21127638_Source/lib/hash.cc:166-181 | finds an item with the key in the bucket, or -1 exactly when there is none |
| `Hashing.HashTable.Remove` | 21127047_21127183_21127638_Source/lib/hash.cc:208-223 | returns the key's item and removes exactly that key |
| `Hashing.HashTable.FindNextFullBucket` | 21127047_21127183_21127638_Source/lib/hash.cc:249-259 | the next bucket that is not empty, with only empty ones before it |
| `Hashing.HashIterator.constructor` | 21127047_21127183_21127638_Source/lib/hash.cc:331-340 | all items are still to come |
| `Hashing.HashIterator.Next` | 21127047_21127183_21127638_Source/lib/hash.cc:347-360 | exactly one item fewer to come, the others in order |
| `BitSpec.FirstClear` | 21127047_21127183_21127638_Source/lib/bitmap.cc:110-120 | the lowest clear bit, or -1 exactly when all are set |
| `BitSpec.CountFindsClear` | 21127047_21127183_21127638_Source/lib/bitmap.cc:110-139 | there is a bit to find if and only if NumClear is positive |
| `BitSpec.TakeClearMarks` | 21127047_21127183_21127638_Source/filesys/filehdr.cc:51-56 | allocating one bit after the other: the bits found were clear, and exactly they become set |
| `BitSpec.TakeClearDistinct` | 21127047_21127183_21127638_Source/filesys/filehdr.cc:51-56 | no bit is given out twice |
| `BitSpec.TakeClearBelow` | 21127047_21127183_21127638_Source/userprog/addrspace.cc:129-141 | a first-fit allocation stays below a limit if and only if enough bits below it are clear |
| `BitSpec.TakeThenClear` | 21127047_21127183_21127638_Source/filesys/filehdr.cc:68-74 | clearing what was allocated gives the map back |
| `WordBits.MarkWord` | 21127047_21127183_21127638_Source/lib/bitmap.cc:55-63 | setting a bit of its word sets that bit of the map and no other |
| `WordBits.ClearWord` | 21127047_21127183_21127638_Source/lib/bitmap.cc:72-80 | clearing a bit of its word clears that bit of the map and no other |
| `Bitmaps.Bitmap.constructor` | 21127047_21127183_21127638_Source/lib/bitmap.cc:21-36 | all bits clear, also in the last, partly used word |
| `Bitmaps.Bitmap.Mark` | 21127047_21127183_21127638_Source/lib/bitmap.cc:55-63 | sets one bit of the map |
| `Bitmaps.Bitmap.Clear` | 21127047_21127183_21127638_Source/lib/bitmap.cc:72-80 | clears one bit of the map |
| `Bitmaps.Bitmap.Test` | 21127047_21127183_21127638_Source/lib/bitmap.cc:89-99 | the bit of the map |
| `Bitmaps.Bitmap.FindAndSet` | 21127047_21127183_21127638_Source/lib/bitmap.cc:110-120 | finds and sets the lowest clear bit, or returns -1 and changes nothing |
| `Bitmaps.Bitmap.NumClear` | 21127047_21127183_21127638_Source/lib/bitmap.cc:128-139 | the number of clear bits |
| `FileHeaders.HeaderRoundTrip` | 21127047_21127183_21127638_Source/filesys/filehdr.cc:83-100 | a header written to its sector is read back the same |
| `FileHeaders.SectorsFor` | 21127047_21127183_21127638_Source/filesys/filehdr.cc:47 | the number of sectors is rounded up: enough for the bytes, and not one too many |
| `FileHeaders.FileHeader.Allocate` | 21127047_21127183_21127638_Source/filesys/filehdr.cc:43-58 | succeeds if and only if enough sectors are free, and otherwise leaves the map alone; takes the lowest free sectors |
| `FileHeaders.FileHeader.Deallocate` | 21127047_21127183_21127638_Source/filesys/filehdr.cc:67-74 | frees exactly the file's data sectors; its assertion that they are marked is met by every caller |
| `FileHeaders.FileHeader.FetchFrom` | 21127047_21127183_21127638_Source/filesys/filehdr.cc:83-87 | the header stored in the sector |
| `FileHeaders.FileHeader.WriteBack` | 21127047_21127183_21127638_Source/filesys/filehdr.cc:96-100 | the sector holds the header and no other sector changes |
| `OpenFiles.SliceOfSectors` | 21127047_21127183_21127638_Source/filesys/openfile.cc:128-139 | the part of the sector buffer copied out is the flat slice of the file |
| `OpenFiles.CopyAssembles` | 21127047_21127183_21127638_Source/filesys/openfile.cc:158-175 | reading the partial first and last sectors before overwriting leaves the buffer with the old bytes around the new ones, for every alignment |
| `OpenFiles.WriteIsSplice` | 21127047_21127183_21127638_Source/filesys/openfile.cc:177-180 | writing the buffer sector by sector splices the new bytes into the file |
| `OpenFiles.ClampIsLargest` | 21127047_21127183_21127638_Source/filesys/openfile.cc:122-125 | the count returned is the largest within both the request and the file |
| `OpenFiles.OpenFile.ReadAt` | 21127047_21127183_21127638_Source/filesys/openfile.cc:115-142 | returns exactly the bytes of the file from position on, clamped to its length |
| `OpenFiles.OpenFile.WriteAt` | 21127047_21127183_21127638_Source/filesys/openfile.cc:144-183 | the file becomes old prefix, written bytes, old suffix, clamped to its length; no sector outside the file changes |
| `OpenFiles.OpenFile.Read` | 21127047_21127183_21127638_Source/filesys/openfile.cc:73-79 | reads from the seek position and moves it on by what was read |
| `OpenFiles.OpenFile.Write` | 21127047_21127183_21127638_Source/filesys/openfile.cc:81-87 | writes at the seek position and moves it on by what was written |
| `Names.EqualIffSameKey` | 21127047_21127183_21127638_Source/filesys/directory.cc:89-96 | two names compare equal on 9 characters if and only if their 9-character keys are the same |
| `Names.KeyIsPrefix` | 21127047_21127183_21127638_Source/filesys/directory.cc:89-96 | a key is the name up to its first NUL, its end or the given number of characters |
| `Directories.NineCharacters` | 21127047_21127183_21127638_Source/filesys/directory.h:22 | names are known by at most nine characters |
| `Directories.TableRoundTrip` | 21127047_21127183_21127638_Source/filesys/directory.cc:62-79 | a directory table written to its file is read back the same |
| `Directories.Directory.FindIndex` | 21127047_21127183_21127638_Source/filesys/directory.cc:89-96 | the entry in use with the name's key, or -1 exactly when there is none |
| `Directories.Directory.Find` | 21127047_21127183_21127638_Source/filesys/directory.cc:107-115 | the sector of the entry with the name's key, or -1 |
| `Directories.Directory.Add` | 21127047_21127183_21127638_Source/filesys/directory.cc:128-142 | fails exactly when the key is taken or no slot is free, and then changes nothing; otherwise one new entry |
| `Directories.Directory.Remove` | 21127047_21127183_21127638_Source/filesys/directory.cc:152-161 | frees exactly the entry of the name's key, if there is one |
| `PersistentBitmaps.FetchFrom` | 21127047_21127183_21127638_Source/filesys/pbitmap.cc:62-66 | the bits stored in the file |
| `PersistentBitmaps.WriteBack` | 21127047_21127183_21127638_Source/filesys/pbitmap.cc:75-79 | the file stores the bits, and no sector outside it changes |
| `FsLayout.AddConsistent` | 21127047_21127183_21127638_Source/filesys/filesys.cc:174-214 | adding a file whose sectors were free keeps ownership disjoint and the free map exact |
| `FsLayout.DropConsistent` | 21127047_21127183_21127638_Source/filesys/filesys.cc:256-286 | removing a file and freeing its sectors keeps ownership disjoint and the free map exact |
| `FileSystemSpec.CreateKeepsInvariant` | 21127047_21127183_21127638_Source/filesys/filesys.cc:174-214 | the disk after Create again stores a consistent file system |
| `FileSystemSpec.CreateRefines` | 21127047_21127183_21127638_Source/filesys/filesys.cc:174-214 | Create adds one name with a file of the given size; every other file keeps its name and contents |
| `FileSystemSpec.RemoveRefines` | 21127047_21127183_21127638_Source/filesys/filesys.cc:256-286 | Remove takes away one name; every other file keeps its name and contents |
| `FileSystemSpec.WriteRefines` | 21127047_21127183_21127638_Source/filesys/openfile.cc:144-183 | a write to one file changes the contents of that file only, and neither free map nor directory |
| `FileSystemSpec.CreateThenRemove` | 21127047_21127183_21127638_Source/filesys/filesys.cc:174-286 | Create followed by Remove restores the free sectors and all files |
| `FileSystemSpec.FileIsMarked` | 21127047_21127183_21127638_Source/filesys/filesys.cc:256-286 | every sector of a listed file is marked, so the assertion in Deallocate never fails |
| `FileSystems.FileSystem.Format` | 21127047_21127183_21127638_Source/filesys/filesys.cc:81-136 | formatting any disk yields a consistent, empty file system |
| `FileSystems.FileSystem.Mount` | 21127047_21127183_21127638_Source/filesys/filesys.cc:137-142 | a disk that stores a consistent file system can be opened as it is |
| `FileSystems.FileSystem.Create` | 21127047_21127183_21127638_Source/filesys/filesys.cc:174-214 | succeeds if and only if the 9-character name is absent, a slot is free and 1 + ceil(size/SectorSize) sectors are free; a failure leaves the disk as it was; success adds exactly this file |
| `FileSystems.FileSystem.Open` | 21127047_21127183_21127638_Source/filesys/filesys.cc:226-240 | opens the file of the name's key, with its contents, or returns null exactly when there is none |
| `FileSystems.FileSystem.Remove` | 21127047_21127183_21127638_Source/filesys/filesys.cc:256-286 | succeeds exactly when the name exists and removes exactly it; otherwise the disk is as it was |
| `FileSystems.FileSystem.CreateAndRemove` | 21127047_21127183_21127638_Source/filesys/filesys.cc:174-286 | creating a file and removing it again restores the free map and all files, whether or not there was room |
| `FileSystems.FileSystem.WriteAt` | 21127047_21127183_21127638_Source/filesys/openfile.cc:144-183 | splices the bytes into one file of the map of files and keeps the whole file system consistent |
| `Paging.TranslateInBounds` | 21127047_21127183_21127638_Source/machine/translate.cc:184-251 | an access that translates lies in main memory and in one frame |
| `Paging.TranslateOutcome` | 21127047_21127183_21127638_Source/machine/translate.cc:184-251 | exactly when an access gets which exception, and otherwise the byte at the same place in the page's frame |
| `Paging.TouchOnly` | 21127047_21127183_21127638_Source/machine/translate.cc:243-247 | a translation marks its page as used, and dirty for a write, and nothing else |
| `Paging.TranslateByteOf` | 21127047_21127183_21127638_Source/machine/translate.cc:184-251 | a wide access translates to the translations of its bytes |
| `Paging.StoreIsolated` | 21127047_21127183_21127638_Source/machine/translate.cc:135-167 | a store through one page table changes no byte readable through a table with other frames |
| `Paging.StoreVirtual` | 21127047_21127183_21127638_Source/machine/translate.cc:135-167 | a store changes the bytes it names and no other byte the program can read, if no two pages share a frame |
| `Machines.Machine.Lookup` | 21127047_21127183_21127638_Source/machine/translate.cc:184-251 | which exception, or which physical address, and which use and dirty bits |
| `Machines.Machine.ReadMem` | 21127047_21127183_21127638_Source/machine/translate.cc:85-120 | reads 1, 2 or 4 bytes, or raises the exception of the failed translation; changes only the use bit |
| `Machines.Machine.WriteMem` | 21127047_21127183_21127638_Source/machine/translate.cc:135-167 | writes the bytes at the translated address and nowhere else, or raises the exception |
| `Machines.ReadValueBytes` | 21127047_21127183_21127638_Source/machine/translate.cc:99-116 | what is read: the bytes in memory, a single byte sign-extended and a half word zero-extended |
| `Machines.StoreThenRead` | 21127047_21127183_21127638_Source/machine/translate.cc:85-167 | what has been stored is read back, as far as the size goes |
| `Machines.Machine.CommitLoad` | 21127047_21127183_21127638_Source/machine/mipssim.cc:711-718 | commits the delayed load and queues the next; register 0 stays 0 |
| `Machines.Machine.RaiseException` | 21127047_21127183_21127638_Source/machine/machine.cc:100-110 | an exception records the address and commits the delayed load |
| `Machines.Machine.LoadLeft` | 21127047_21127183_21127638_Source/machine/mipssim.cc:312-362 | the instruction's effect on registers, delay slot and page table, on success and on exception |
| `Machines.Machine.LoadRight` | 21127047_21127183_21127638_Source/machine/mipssim.cc:364-418 | the instruction's effect on registers, delay slot and page table, on success and on exception |
| `Machines.Machine.StoreLeft` | 21127047_21127183_21127638_Source/machine/mipssim.cc:552-609 | the instruction's effect on memory, delay slot and page table, on success and on exception |
| `Machines.Machine.StoreRight` | 21127047_21127183_21127638_Source/machine/mipssim.cc:611-665 | the instruction's effect on memory, delay slot and page table, on success and on exception |
| `UnalignedSpec.IntoTopBytes` | 21127047_21127183_21127638_Source/machine/mipssim.cc:343-360 | which bytes of the result come from which word, in all four alignments |
| `UnalignedSpec.IntoBottomBytes` | 21127047_21127183_21127638_Source/machine/mipssim.cc:396-416 | which bytes of the result come from which word, in all four alignments |
| `UnalignedPairs.LoadPair` | 21127047_21127183_21127638_Source/machine/mipssim.cc:312-418 | LWL rt,a+3 then LWR rt,a yields the word at a for every alignment, with or without an interrupt in between |
| `UnalignedPairs.LoadPairAddressIff` | 21127047_21127183_21127638_Source/machine/mipssim.cc:694-718 | the two instructions of a load pair use one address if and only if no delayed load that changes the base register is under way |
| `UnalignedPairs.StorePair` | 21127047_21127183_21127638_Source/machine/mipssim.cc:552-665 | SWL rt,a+3 then SWR rt,a stores the word at a and changes no other readable byte |
| `UnalignedPairs.StorePairOperandsIff` | 21127047_21127183_21127638_Source/machine/mipssim.cc:694-718 | the two instructions of a store pair see the same address and value if and only if no delayed load that changes either register is under way |
| `UnalignedPairs.StoreThenLoad` | 21127047_21127183_21127638_Source/machine/mipssim.cc:312-665 | what a pair of stores wrote, a pair of loads reads back |
| `UnalignedSpec.AddressIsSum` | 21127047_21127183_21127638_Source/machine/mipssim.cc:313 | the address is the sum, wrapped round at 32 bits |
| `PairOutcomes.LoadInstruction` | 21127047_21127183_21127638_Source/machine/mipssim.cc:312-418 | a completed load moves the program counters on and leaves its result in the delay slot; a failed one is to be tried again, and nothing else changes |
| `PairOutcomes.StoreInstruction` | 21127047_21127183_21127638_Source/machine/mipssim.cc:552-665 | a completed store moves the program counters on; a failed one, by its read or else its write, is to be tried again and leaves memory alone |
| `PairOutcomes.LoadPairCompletesIff` | 21127047_21127183_21127638_Source/machine/mipssim.cc:312-418 | with no delayed load into the base under way, a load pair completes if and only if the program can read the four bytes |
| `PairOutcomes.LoadPairRightIff` | 21127047_21127183_21127638_Source/machine/mipssim.cc:312-418 | a completed load pair yields the word at a in every memory if and only if no delayed load that changes the base register is under way |
| `PairOutcomes.LoadPairGoesWrong` | 21127047_21127183_21127638_Source/machine/mipssim.cc:694-718 | a load pair that yields the word at 4 instead of the word at 0 |
| `PairOutcomes.StorePairCompletesIff` | 21127047_21127183_21127638_Source/machine/mipssim.cc:552-665 | with no delayed load into the base under way, a store pair completes if and only if the program can write the four bytes |
| `PairOutcomes.StorePairByte` | 21127047_21127183_21127638_Source/machine/mipssim.cc:552-665 | what a store pair leaves at every address, whatever the delay slot held |
| `PairOutcomes.StorePairRightIff` | 21127047_21127183_21127638_Source/machine/mipssim.cc:552-665 | a completed store pair stores the word, and nothing else, in every memory if and only if its second store lands on its place or within an aligned word and writes the bytes the word has there |
| `PairOutcomes.StorePairValueIff` | 21127047_21127183_21127638_Source/machine/mipssim.cc:552-665 | with the base register settled: right if and only if the value the second store sees agrees with the register on the bytes it writes |
| `PairOutcomes.StorePairGoesWrong` | 21127047_21127183_21127638_Source/machine/mipssim.cc:694-718 | a store pair that stores the value of the delayed load instead of the register |
| `UnalignedPairs.AfterLwl` | 21127047_21127183_21127638_Source/machine/interrupt.cc:309-311 | an interrupt between the instructions of a pair commits the delayed load without changing what the second one sees |
| `FrameSpec.AllocateKeepsOwnership` | 21127047_21127183_21127638_Source/userprog/addrspace.cc:106-142 | allocating keeps: a frame is marked if and only if it belongs to exactly one page of exactly one live space |
| `FrameSpec.CreateKeepsOwnership` | 21127047_21127183_21127638_Source/userprog/addrspace.cc:106-155 | creating a space, copies included, keeps ownership exact |
| `FrameSpec.DestroyKeepsOwnership` | 21127047_21127183_21127638_Source/userprog/addrspace.cc:160-167 | destroying a space keeps ownership exact |
| `FrameSpec.WriteKeepsOwnership` | 21127047_21127183_21127638_Source/machine/translate.cc:135-167 | stores keep ownership exact |
| `FrameSpec.AllocatedIsZero` | 21127047_21127183_21127638_Source/userprog/addrspace.cc:129-142 | before the program is copied in, every byte a new space can read is zero |
| `FrameSpec.AllocatedReach` | 21127047_21127183_21127638_Source/userprog/addrspace.cc:129-142 | a new space can read and write exactly its pages, as many as asked for, as far as their frames exist |
| `FrameSpec.AllocateIsolated` | 21127047_21127183_21127638_Source/userprog/addrspace.cc:106-142 | allocating and zeroing change no byte any other space can read |
| `FrameSpec.LoadIsolated` | 21127047_21127183_21127638_Source/userprog/addrspace.cc:144-155 | copies that land in frames that were free change no byte any other space can read |
| `FrameSpec.LoadIsolatedIff` | 21127047_21127183_21127638_Source/userprog/addrspace.cc:144-155 | a creation disturbs no other space, whatever the program file holds, if and only if every byte it copies lands in a frame that was free |
| `FrameSpec.ZeroAddressLands` | 21127047_21127183_21127638_Source/userprog/addrspace.cc:144-155 | segments at virtual address 0 land in the space's own frames |
| `FrameSpec.ProgramInPlace` | 21127047_21127183_21127638_Source/userprog/addrspace.cc:144-155 | a program whose last segment starts at address 0 finds it there |
| `FrameSpec.LoaderDisturbsOther` | 21127047_21127183_21127638_Source/userprog/addrspace.cc:144-155 | a run from boot in which creating one process changes a byte of another |
| `FrameSpec.WriteIsolated` | 21127047_21127183_21127638_Source/machine/translate.cc:135-167 | a store in one process changes no byte any other process can read |
| `FrameSpec.WriteSeen` | 21127047_21127183_21127638_Source/machine/translate.cc:135-167 | the process itself sees its store exactly where it made it; one that fails changes nothing |
| `FrameSpec.RunIsolated` | 21127047_21127183_21127638_Source/userprog/addrspace.cc:106-167 | over every run of creations that land in free frames, destructions and stores by others, a process finds all its memory as it left it |
| `FrameSpec.BootRunIsolated` | 21127047_21127183_21127638_Source/userprog/addrspace.cc:106-167 | the same from boot on, with ownership exact throughout |
| `FrameSpec.CreateThenDestroy` | 21127047_21127183_21127638_Source/userprog/addrspace.cc:106-167 | destroying a new space gives back its frames and no others; what was copied stays in memory |
| `FrameSpec.AllocateInMemoryIff` | 21127047_21127183_21127638_Source/threads/kernel.cc:114 | a new space gets only frames that exist if and only if enough frames of real memory were free |
| `FrameSpec.AllocateOutsideMemory` | 21127047_21127183_21127638_Source/machine/machine.h:38 | from boot, two programs that together exceed memory are both accepted and the second is given a frame beyond memory |
| `AddrSpaces.Kernel.CopySegment` | 21127047_21127183_21127638_Source/userprog/addrspace.cc:144-155 | copies each page's part of a segment to its frame and the segment's address beyond it |
| `AddrSpaces.Kernel.CreateSpace` | 21127047_21127183_21127638_Source/userprog/addrspace.cc:106-156 | takes the lowest free frames, zeroes and maps them and copies the segments, or creates an empty space when too few bits are clear |
| `AddrSpaces.Kernel.DestroySpace` | 21127047_21127183_21127638_Source/userprog/addrspace.cc:160-167 | clears the space's frames in the bitmap and touches no memory |
| `AddrSpaces.Kernel.Store` | 21127047_21127183_21127638_Source/machine/translate.cc:135-167 | a store by the owner of a space, through the machine's page table |
| `ThreadSpec.NextKeepsInv` | 21127047_21127183_21127638_Source/threads/thread.cc:94-258 | every step keeps the whole invariant of threads, ready list and semaphores |
| `ThreadSpec.RunsAreSafe` | 21127047_21127183_21127638_Source/threads/scheduler.cc:103-167 | in every run from boot no assertion fails: nothing is appended to a list it is in, nobody else awaits destruction when a finished thread is switched out, and no thread deletes itself |
| `ThreadSpec.ExactlyOnePlace` | 21127047_21127183_21127638_Source/threads/scheduler.cc:56-167 | in every run every thread is in exactly one place: just created, on the processor, at one position of the ready list, at one position of one semaphore's queue, or on its way out; its status says which |
| `ThreadSpec.ReadyMovesUp` | 21127047_21127183_21127638_Source/threads/scheduler.cc:74-84 | in every run a thread on the ready list moves up one place with each dispatch |
| `ThreadSpec.DispatchedInTurn` | 21127047_21127183_21127638_Source/threads/scheduler.cc:74-84 | in every run a thread at position k of the ready list is dispatched after exactly k others |
| `ThreadSpec.TryCounts` | 21127047_21127183_21127638_Source/threads/synch.cc:84-88 | a turn of P keeps value >= 0, and value <= woken threads while the queue is not empty |
| `ThreadSpec.WakeCounts` | 21127047_21127183_21127638_Source/threads/synch.cc:110-113 | V keeps value >= 0, and value <= woken threads while the queue is not empty |
| `ThreadSpec.NoLostWakeup` | 21127047_21127183_21127638_Source/threads/synch.cc:75-117 | in every run, while threads sleep on a semaphore its value is at most the number of threads woken and still to look at it, all of which are ready or just switched to |
| `ThreadSpec.SemaphoreConservation` | 21127047_21127183_21127638_Source/threads/synch.cc:75-117 | in every run a semaphore's value is its initial value plus the V's done minus the P's completed, and never negative |
| `ThreadSpec.ReturnsIffPositive` | 21127047_21127183_21127638_Source/threads/synch.cc:84-88 | in every run an attempt at P returns if and only if the value is positive, and otherwise the thread sleeps at the end of the queue |
| `ThreadSpec.TryOutcome` | 21127047_21127183_21127638_Source/threads/synch.cc:84-88 | an attempt at P takes one and returns, or leaves the value at 0 and sleeps last in the queue |
| `ThreadSpec.WokenInTurn` | 21127047_21127183_21127638_Source/threads/synch.cc:110-113 | in every run the thread at position k of a semaphore's queue is made ready by the V that k waking ones came before |
| `ThreadSpec.ThreadsComeAndGo` | 21127047_21127183_21127638_Source/threads/thread.cc:94-109 | threads are made and forked, last on the ready list, and gone only by destruction |
| `ThreadSpec.FinishedForGood` | 21127047_21127183_21127638_Source/threads/thread.cc:174-184 | in every run a thread that has finished is never ready and never runs again |
| `Threads.Kernel.ReadyToRun` | 21127047_21127183_21127638_Source/threads/scheduler.cc:56-64 | the thread becomes ready at the end of the list |
| `Threads.Kernel.FindNextToRun` | 21127047_21127183_21127638_Source/threads/scheduler.cc:74-84 | takes the first ready thread, if there is one |
| `Threads.Kernel.Run` | 21127047_21127183_21127638_Source/threads/scheduler.cc:103-133 | the switch, up to the point where the next thread runs |
| `Threads.Kernel.CheckToBeDestroyed` | 21127047_21127183_21127638_Source/threads/scheduler.cc:160-167 | deletes the finished thread, if there is one |
| `Threads.Kernel.Fork` | 21127047_21127183_21127638_Source/threads/thread.cc:94-109 | a step of the machine: a created thread becomes ready |
| `Threads.Kernel.Yield` | 21127047_21127183_21127638_Source/threads/thread.cc:204-220 | a step of the machine: no effect with an empty ready list, otherwise the current thread goes to its end and the first one runs |
| `Threads.Kernel.SleepLoop` | 21127047_21127183_21127638_Source/threads/thread.cc:253-257 | a step of the machine: switches to the first ready thread, or leaves everything for an interrupt to change |
| `Threads.Kernel.Finish` | 21127047_21127183_21127638_Source/threads/thread.cc:174-184 | a step of the machine: the current thread blocks for good |
| `Threads.Kernel.Arrive` | 21127047_21127183_21127638_Source/threads/scheduler.cc:133-150 | a step of the machine: the thread switched to reaps the finished one and, if it slept in P, looks at the semaphore again |
| `Threads.Kernel.P` | 21127047_21127183_21127638_Source/threads/synch.cc:75-92 | a step of the machine: takes the semaphore or queues up and sleeps |
| `Threads.Kernel.V` | 21127047_21127183_21127638_Source/threads/synch.cc:102-117 | a step of the machine: wakes the first waiter, if any, and raises the value |
| `SynchListSpec.LockKept` | 21127047_21127183_21127638_Source/threads/synch.cc:181-203 | every step keeps mutual exclusion: the lock is free or in the hands of exactly one thread, which lockHolder names between P and V |
| `SynchListSpec.LockWakeKept` | 21127047_21127183_21127638_Source/threads/synch.cc:181-203 | every step keeps: nobody sleeps on a free lock unless some thread is about to take it |
| `SynchListSpec.WaitKept` | 21127047_21127183_21127638_Source/threads/synch.cc:244-283 | every step keeps: a waiter's semaphore exists while anybody may use it, and is 1 exactly from its signal to its P |
| `SynchListSpec.ListKept` | 21127047_21127183_21127638_Source/threads/synchlist.cc:51-81 | every step keeps: appended = removed + list, and what RemoveFront saw of the list still holds when it acts on it |
| `SynchListSpec.SignalKept` | 21127047_21127183_21127638_Source/threads/synch.cc:244-283 | every step keeps: while somebody waits, the list is no longer than the number of threads coming for its elements |
| `SynchListSpec.ExactlyOnceFifo` | 21127047_21127183_21127638_Source/threads/synchlist.cc:51-81 | in every interleaving elements leave once and in order, no element is taken from an empty list, the lock is held wherever it is asserted to be, at most one thread is inside, and none is left asleep on a free lock |
| `SynchListSpec.ReturnedInOrder` | 21127047_21127183_21127638_Source/threads/synchlist.cc:69-81 | in every interleaving the k-th call of RemoveFront to return returns the item of the k-th call of Append to get to the list |
| `SynchListSpec.EachCallOnce` | 21127047_21127183_21127638_Source/threads/synchlist.cc:51-81 | in every interleaving a call that returns has changed the list exactly once |
| `SynchListSpec.ChangesAreCalls` | 21127047_21127183_21127638_Source/threads/synchlist.cc:51-81 | in every interleaving a change of the list is an Append's item at its end or a RemoveFront's first element |
| `SynchListSpec.AppendedByCalls` | 21127047_21127183_21127638_Source/threads/synchlist.cc:51-59 | the items appended are those of the Append calls, in the order in which they got to the list |
| `SynchListSpec.LockQueueFifo` | 21127047_21127183_21127638_Source/threads/synch.cc:181-203 | threads wait for the lock first in, first out |
| `SynchListSpec.WaitQueueFifo` | 21127047_21127183_21127638_Source/threads/synch.cc:244-283 | threads wait for an element first in, first out |
| `SynchListSpec.NoLostSignal` | 21127047_21127183_21127638_Source/threads/synchlist.cc:51-81 | in every interleaving, outside critical sections, a non-empty wait queue implies that the list is no longer than the number of signalled waiters that have still to look |
| `SynchLists.SynchList.Acquire` | 21127047_21127183_21127638_Source/threads/synch.cc:181-185 | a step of the machine: one turn of P, or setting lockHolder |
| `SynchLists.SynchList.Release` | 21127047_21127183_21127638_Source/threads/synch.cc:198-203 | a step of the machine: clearing lockHolder, or V |
| `SynchLists.SynchList.Wait` | 21127047_21127183_21127638_Source/threads/synch.cc:244-256 | a step of the machine: queueing a fresh semaphore, or one turn of its P |
| `SynchLists.SynchList.Signal` | 21127047_21127183_21127638_Source/threads/synch.cc:273-283 | a step of the machine: taking the first waiter off the queue, or its V |
| `SynchLists.SynchList.Append` | 21127047_21127183_21127638_Source/threads/synchlist.cc:51-59 | a step of the machine: the item goes to the end of the list |
| `SynchLists.SynchList.RemoveFront` | 21127047_21127183_21127638_Source/threads/synchlist.cc:69-81 | a step of the machine: looking whether the list is empty, or taking its first element |
| `SynchDiskSpec.NextKeepsInv` | 21127047_21127183_21127638_Source/filesys/synchdisk.cc:57-94 | every step keeps: one call at a time, at most one request out or one completion untaken, and the sector unchanged until its call returns |
| `SynchDiskSpec.DiskAskedWhenIdle` | 21127047_21127183_21127638_Source/machine/disk.cc:113-151 | in every interleaving the disk is never asked while active, and the completion semaphore is 0 or 1 |
| `SynchDiskSpec.SleepsOnlyWhileActive` | 21127047_21127183_21127638_Source/filesys/synchdisk.cc:57-94 | in every interleaving a thread sleeps on the completion semaphore only while its own request is with the disk |
| `SynchDiskSpec.ReturnsAfterOwnCompletion` | 21127047_21127183_21127638_Source/filesys/synchdisk.cc:57-94 | in every interleaving a call returns only after the interrupt that completed its own request |
| `SynchDiskSpec.ReturnsRightData` | 21127047_21127183_21127638_Source/machine/disk.cc:113-151 | in every interleaving WriteSector(x, d) leaves d in sector x, and ReadSector(x) returns what was last written to x |
| `SynchDiskSpec.SectorsHoldLastWritten` | 21127047_21127183_21127638_Source/machine/disk.cc:133-144 | in every interleaving every sector holds what was last written to it |
| `SynchDisks.SynchDisk.AskDisk` | 21127047_21127183_21127638_Source/machine/disk.cc:113-151 | a step of the machine: the request, on an idle disk |
| `SynchDisks.SynchDisk.AwaitCompletion` | 21127047_21127183_21127638_Source/filesys/synchdisk.cc:57-82 | a step of the machine: one turn of P on the completion semaphore |
| `SynchDisks.SynchDisk.CallBack` | 21127047_21127183_21127638_Source/filesys/synchdisk.cc:90-94 | a step of the machine: the completion interrupt, which wakes the waiter |
| `ProcessSpec.NextKeepsInv` | 21127047_21127183_21127638_Source/userprog/Ptable.cc:42-157 | every step keeps the invariant of table, processes, semaphores and Joins under way |
| `ProcessSpec.TableKept` | 21127047_21127183_21127638_Source/userprog/Ptable.cc:42-94 | every step keeps: occupied slot i has process id i, and no process has two slots |
| `ProcessSpec.SemKept` | 21127047_21127183_21127638_Source/userprog/PCB.cc:151-175 | every step keeps: joinsem is up exactly from JoinRelease to the one Join that passes it, and exitsem exactly from ExitRelease to the process's leaving |
| `ProcessSpec.JoinKept` | 21127047_21127183_21127638_Source/userprog/Ptable.cc:96-120 | every step keeps: one Join at most is past an incarnation's joinsem, and until it releases it the block stays in its slot |
| `ProcessSpec.ProcessIds` | 21127047_21127183_21127638_Source/userprog/Ptable.cc:42-157 | in every interleaving occupied slot i has process id i, the block is not removed before the code is read, and Join returns the argument of the one Exit that the process it waited for has called |
| `ProcessSpec.ReturnedCodes` | 21127047_21127183_21127638_Source/userprog/Ptable.cc:96-157 | in every interleaving: the step at which a Join that returned was called and what it found in the slot, the step at which it returned, and the one Exit whose argument it returned |
| `ProcessSpec.CodesAreExits` | 21127047_21127183_21127638_Source/userprog/Ptable.cc:142-148 | a process's code is the argument of the one Exit it calls |
| `ProcessSpec.ExecReturns` | 21127047_21127183_21127638_Source/userprog/Ptable.cc:51-94 | in every interleaving Exec returns -1 exactly when it gives up, and otherwise the slot of the one child it has made, running the program named |
| `ProcessSpec.JoinRightIff` | 21127047_21127183_21127638_Source/userprog/Ptable.cc:96-157 | in every interleaving that has run its Joins to the end, all of them returned the code of the process they checked if and only if none was started on a process already joined |
| `ProcessSpec.CleanRunsAreSafe` | 21127047_21127183_21127638_Source/userprog/Ptable.cc:96-157 | as long as nobody joins a process twice, no empty slot is used |
| `ProcessSpec.CleanMeans` | 21127047_21127183_21127638_Source/userprog/Ptable.cc:101-105 | that nobody joined twice, read off the run |
| `ProcessSpec.ExecAlone` | 21127047_21127183_21127638_Source/userprog/Ptable.cc:51-94 | an undisturbed Exec puts the new process into the lowest free slot |
| `ProcessSpec.JoinAgainGoesWrong` | 21127047_21127183_21127638_Source/userprog/Ptable.cc:96-120 | a run from boot in which a second Join returns another process's code |
| `ProcessTables.PTable.GetFreeSlot` | 21127047_21127183_21127638_Source/userprog/Ptable.cc:42-47 | the lowest empty slot, or -1 when there is none |
| `ProcessTables.PTable.ExecUpdate` | 21127047_21127183_21127638_Source/userprog/Ptable.cc:51-94 | a step of the machine: bmsem, the checks and the new block, the fork, or leaving |
| `ProcessTables.PTable.StartJoinUpdate` | 21127047_21127183_21127638_Source/userprog/Ptable.cc:96-109 | a step of the machine: the check, which fails exactly for ids out of range, empty slots and other processes' children |
| `ProcessTables.PTable.JoinUpdate` | 21127047_21127183_21127638_Source/userprog/Ptable.cc:109-119 | a step of the machine: JoinWait, GetExitCode or ExitRelease |
| `ProcessTables.PTable.ExitUpdate` | 21127047_21127183_21127638_Source/userprog/Ptable.cc:154-157 | a step of the machine: JoinRelease, ExitWait or Remove |
| `ProcessTables.PTable.Remove` | 21127047_21127183_21127638_Source/userprog/Ptable.cc:4-17 | empties the slot |

## Left out

- FILESYS_STUB variants, sockets, console, network and post office: thin wrappers over the host system.
- Reading the program file: its header, and what each read of it delivers, are arguments of CreateSpace; `Load`, the older loader, is not modelled.
- System-call dispatch in userprog/exception.cc: register plumbing and console output.
- SWITCH, stack allocation and saved machine state: assembly; a context switch is a change of the current thread.
- The other MIPS instructions and the decoder: mostly one branch each.
- The TLB branch of Translate: not compiled in this configuration.
- Crash consistency of the file system: the source disclaims it.
- STable and Sem (named semaphores for user programs), numwait in PCB, ExecV: they would only add easy members.
- Printing, debugging, self tests and statistics other than the tick counts.
- Condition::Broadcast: a loop over Signal that no modelled caller uses.
- FileSystems.FileSystem.Create: sizes are between 0 and MaxFileSize, which the source relies on without checking: a larger one overruns the header's table of sectors.
- FileSystems.FileSystem.CreateAndRemove: sizes as for Create.
- FileHeaders.FileHeader.Allocate: sizes as for Create.
- OpenFiles.OpenFile.ReadAt: positions are not negative, which the source relies on without checking: it would index its buffer below 0.
- OpenFiles.OpenFile.WriteAt: positions as for ReadAt; handles of removed files are not used.
- OpenFiles.OpenFile.Read: the seek position is not negative, as for ReadAt.
- OpenFiles.OpenFile.Write: the seek position is not negative, as for ReadAt.
- FileSystems.FileSystem.WriteAt: positions as for ReadAt, through a handle of a listed file.
- Directories.TableRoundTrip: the padding of a directory entry on disk is written as zeros, where the source leaves what was in memory.
- AddrSpaces.Kernel.CreateSpace: zeroing or copying to an address outside main memory has no effect here, where the source writes outside its array; sizes that overflow an unsigned int are not modelled, and addrLock is not, since only one space is created at a time.
- InterruptSimulator.Interrupt.CheckIfDue: the delayed load it commits on the machine is `Interrupted` in `UnalignedSpec`, where the pairs are proved right around it.
- InterruptSimulator.Interrupt.OneTick: ticks are unbounded integers; the Yield inside OneTick is left to its caller, which learns from mustYield that it has to make it.
- InterruptSimulator.Interrupt.CallBack: a handler is any finite sequence of Schedule and YieldOnReturn calls; what else it does is not modelled.
- Hashing.HashTable.Insert: the buckets are sequences, as `LinkedList.List` shows the lists they are in the source to be; the same holds for the pending interrupts, the ready list and the queues of semaphores.
- LinkedList.List.Append: a list holds an item at most once, as the source asserts; items are compared by identity.
- LinkedList.List.Insert: takes the comparison of SortedList as an argument, one class standing for both.
- Threads.Kernel.Arrive: a thread object's memory and stack are not modelled; deletion of semaphores is not, as the source assumes nobody waits on one that is deleted.
- SynchListSpec.ExactlyOnceFifo: List::Append's assertion that the item is not in the list yet is left to the callers of SynchList::Append.
- SynchDiskSpec.DiskAskedWhenIdle: a thread waiting for the lock goes on when the lock is free, without the lock's queue, which `ThreadSpec` and `SynchListSpec` have.
- Storage.SynchDisk: the file system uses the disk as one call after the other, which is what `SynchDiskSpec` shows it to provide.
- ProcessSpec.ProcessIds: Exit of the main process ends the run; Exit of a process whose parent's slot is empty, which the source would follow a null pointer for, is not a step; processes have one thread; a Join that sleeps on a deleted semaphore never returns.
