# A verified model of FLogFS

FLogFS is an append-only file system for raw NAND flash. A file is a chain of
flash blocks. The sectors of a block are written once each, in an order of
their own (INIT, the rest of page 0 but one, all other pages, then TAIL), and
the TAIL sector links the next block. The inode table is a log of records in
a chain of blocks of its own. Free blocks are found by looking at random
blocks, and a few of them are kept on lists. At most one block at a time is
*dirty*: it is in a file's chain, but nothing in it has been written yet, so
that on flash it looks free.

This project models that file system over a write-once flash device and
proves that, for its users, it is a map from names to byte sequences.

## How the model is built

* `Geometry` has sizes, reserved values, 32-bit counters and the sector order.
* `Tables` is what the volume *means*: every block is free, or has one place in
  one file's chain, or has one place in the inode chain; beside them the log of
  records, the writers' buffers and the dirty file. `TablesOk` is the
  invariant, `FileMap` the user's view, and `TablesProofs` and `Refinement`
  prove what each step keeps and what it means.
* `Machine` makes the steps a state machine. Its state is the tables and the byte
  counter of each open writer. A step is enabled only where the code takes it: a
  sector is committed when it is full, or flushed under the guards of the code.
  `Runs` and `CountRuns` prove what holds over every run of it. Each
  operation on a mounted volume is proved to be a run of the machine, of a named
  `Kind` that says which steps may be in it (`KeepsBy`, `Takes`, `Starts` and
  `Drops` say what becomes of the counters). `Sessions` draws the conclusions for
  sequences of calls from their kinds alone. `Scenarios` has runs from a
  formatted volume into each state in which an operation does not do what one
  expects.
* `Flash` is the device with typed structures; writing needs erased bytes.
  `Image` says when the flash contents represent the tables.
  `MappedDevice` is the device as one flat byte mapping, and `Simulation`
  runs the two devices side by side.
* `Prealloc`, `FileSystem`, `Allocator`, `Writer`, `Inodes`, `NewFile`,
  `OpenClose`, `Remove`, `Reader`, `Seek` and `Mount` are the operations, as
  methods on mutable objects, with the branches and constants of the
  C code. Each is proved against the tables: its contract says how the
  ghost field `t` (the volume) changes and that the flash represents it again.
  `Counts`, `Fullness` and `Effects` say what a write does to the byte counts,
  to how full the blocks are, and to all other files.

Several files may be open for writing at once. A method's ghost parameter
`others` is the set of all other open handles; the contract says of each of them
that it stays open and holds what it held, so that calls on different files can
follow each other in any order. That every write hits erased
bytes is the precondition of the device's methods, so each method that
verifies respects it.

The random numbers of the device are an arbitrary stream of which the file system
uses one after the other. So it is exact which blocks are looked at, and which of
them become available (`Gather`).

The parameters are the number of blocks (below 0xFFFF), the pages in a block
(at least 2: with one page the sector order leaves the block,
`SectorOrderNeedsTwoPages`), and the size of the preallocator. There are four
512-byte sectors in a page, and erased bytes are 0xFF.

## Where the code is not what one expects

The model follows the code. In each of these places a lemma or contract says
exactly when things go well.

* Closing a writer flushes under a condition that misses a writer that stands
  in the TAIL sector, and one whose offset is 16. The comment on the function
  says that all outstanding data is flushed. What is buffered is lost if and only
  if something is buffered in the TAIL sector, or just 16 bytes in a sector
  without a header (`CloseWrite`; `TailByteIsLost`). With just 4 bytes in the
  INIT sector the handle is not flushed either, but the file is dirty, so the
  file system goes on using a handle that its owner has given up; after mounting
  again the 4 bytes are gone (`FourBytesAreForgotten`).
* If an INIT sector is committed empty, which happens when another file is
  created before anything is written, a reader that enters the block goes on
  behind the next sector too and never sees what that holds. A reader sees all
  of a file if and only if no block hides data like this (`SeenIsCommitted`,
  `EarlyFlushHides`).
* Opening a file for reading before its first sector has been committed gives
  the reader an erased size (0xFFFF) to read (`OpenRead`, by `Starts`;
  `NewFileIsNotReadable`).
* Opening an existing file for writing leaves the handle's byte counter as it
  happens to be, and that counter is what the TAIL sector will say. Over every
  run, the counts of a file are right if and only if each handle that goes on to
  complete a block was opened with the right counter (`RunCounts`;
  `ReopenedCountIsWrong`). They are right if the file is never reopened
  (`SameHandleCounts`). Seeking skips blocks by these counts; it still finds every
  position if no count is too low (`WalkFindsAll`).
* A file that was closed without a flush and is dirty can be opened again, but the
  new handle stands at the start of its INIT sector with no room for the header.
  A reopened handle stands where the next sector goes if and only if the file was
  not dirty (`Reopen`). Removing a file keeps the volume in order if and only if
  it has no handle in use, such a one included (`RemoveKeeps`).
* An inode iterator reads the next block of the chain when it enters a block, and
  listing files is a series of calls with no lock between them. If it is in the
  last block when another is linked, what it remembers gets out of date
  (`IteratorAges`). The assertion that there is a next block then fails once the
  last record of the block is passed, and in no other case (`IteratorNext`,
  `LsIterate`; `ListingGivesUp`).
* Only mounting, and taking the last block off the list, look for free blocks. So
  once the list of available blocks is empty it stays empty, and every allocation
  fails, even after removing files has freed blocks (`StaysEmpty`, `TookNone` and
  `StockLeft` in the contracts of `OpenWrite`, `CloseWrite` and `Write`; `Rm` and
  whatever only reads leave the list as it is).
* Seeking leaves the header of the sector out of the offset. The reader is fit
  for use if and only if the position is not in an INIT or TAIL sector, or is at
  the end of one (`SeekTo`, `InHeaderedSector`); the start of a file with data in
  its first sector never is (`StartIsHeadered`, `SeekToStartIsNotFit`). After a
  failed seek the reader is made of values never set.
* The number that an inode block carries is 0 for the first and 1 for all others,
  because it is always counted from the first (`InodeNumber`). Only 0 is looked for.
* Removing a file writes statistics whose key was never set. The model lets
  the key be valid or not.
* A file is only told from free blocks once its INIT sector is committed: what
  looks free are the free blocks and the one dirty block (`AdoptsExactly`), and
  priming can take a block that a chain owns for a free one if and only if a file
  is dirty (`PrimingTakesOwned`). Allocation is safe because it flushes first.
  Mounting is not, if a file was left dirty (`Remount`, `PrimeForgotten`).
* If the inode chain is extended and the allocation after it fails, a second
  try that gets a block would write the same TAIL sector again. That sector is
  blank if and only if the chain has not been extended (`TailBlankUnlessEarly`;
  `ExtendedEarly`), and opening a new file asks that no such try is made. A
  failed call leaves the chain extended exactly if there was one record left and
  a block for the chain (`OpenWrite`).
* The repository's README (line 20) promises that interrupted operations are
  cleaned up on mounting; the code does no such thing, and so neither does the
  model.

## Model

| member | source | states |
|---|---|---|
| `Geometry.SectorOrderIsBijection` | src/flogfs.c:1990-1999 | from INIT, the increments visit every sector but sector 0 exactly once, and TAIL last, for any number of pages from 2 |
| `Geometry.SectorOrderNeedsTwoPages` | src/flogfs.c:1990-1999 | the order stays in the block if and only if there are at least two pages |
| `Fullness.BlockBound` | src/flogfs.c:1390-1491 | no block holds more than 512 bytes a sector but for 12 in INIT and 16 in TAIL, and it holds just that if and only if all its sectors are committed and full |
| `Fullness.CompletedFull` | src/flogfs.c:1390-1491 | a completed block of a file all of whose sectors are full holds exactly that much |
| `MappedDevice.AreaPlace` | backends/linux-mmap/flogfs_linux_mmap.cpp:85-101 | for a mapping below 4 GiB the 32-bit offsets do not wrap, and every sector and spare lies within its block and the mapping |
| `MappedDevice.AreasApart` | backends/linux-mmap/flogfs_linux_mmap.cpp:85-101 | no two sectors or spares overlap |
| `MappedDevice.BlockCovers` | backends/linux-mmap/flogfs_linux_mmap.cpp:133-138 | the range of a block contains exactly its own sectors and spares |
| `MappedDevice.Device.OpenPage` | backends/linux-mmap/flogfs_linux_mmap.cpp:122-127 | later accesses go to that page |
| `MappedDevice.Device.EraseBlock` | backends/linux-mmap/flogfs_linux_mmap.cpp:133-138 | all areas of the block become erased, no other area changes |
| `MappedDevice.Device.VerifiedCopy` | backends/linux-mmap/flogfs_linux_mmap.cpp:150-158 | copies if and only if every byte at the destination is erased; else nothing is written |
| `MappedDevice.Device.ReadSector` | backends/linux-mmap/flogfs_linux_mmap.cpp:160-165 | reads the bytes of that sector of the open page |
| `MappedDevice.Device.ReadSpare` | backends/linux-mmap/flogfs_linux_mmap.cpp:167-172 | reads the spare of that sector of the open page |
| `MappedDevice.Device.WriteSector` | backends/linux-mmap/flogfs_linux_mmap.cpp:174-179 | succeeds if and only if the bytes are erased, and changes those bytes of that sector only |
| `MappedDevice.Device.WriteSpare` | backends/linux-mmap/flogfs_linux_mmap.cpp:181-186 | succeeds if and only if the spare is erased, and changes that spare only |
| `Simulation.WrittenMatches` | backends/linux-mmap/flogfs_linux_mmap.cpp:150-158 | a write the typed device accepts hits erased bytes in the flat one, and the sectors still match afterwards |
| `Simulation.WriteSector` | backends/linux-mmap/flogfs_linux_mmap.cpp:174-179 | run on both devices, the flat one's check never fails and the two still hold the same |
| `Simulation.WriteSpare` | backends/linux-mmap/flogfs_linux_mmap.cpp:181-186 | the same for spares |
| `Simulation.EraseBlock` | backends/linux-mmap/flogfs_linux_mmap.cpp:133-138 | a block erased on both devices matches, whatever it held, and all others match if they did |
| `Simulation.EraseDevices` | src/flogfs.c:401-409 | from any contents, erasing every block makes the two devices match |
| `Simulation.ReadHeader` | backends/linux-mmap/flogfs_linux_mmap.cpp:160-165 | both devices read the same structure |
| `Simulation.ReadBytes` | backends/linux-mmap/flogfs_linux_mmap.cpp:160-165 | both devices read the same bytes behind it |
| `Simulation.ReadSpare` | backends/linux-mmap/flogfs_linux_mmap.cpp:167-172 | both devices read the same spare |
| `Prealloc.PushLists` | src/flogfs.c:1704-1723 | a push keeps the three lists acyclic, sharing out all nodes, with distinct block numbers |
| `Prealloc.PopLists` | src/flogfs.c:1725-1740 | a pop, from the front of available to the end of pending, keeps them so |
| `Prealloc.DropLists` | src/flogfs.c:1679-1702 | a node unlinked from anywhere in pending and put on free keeps them so |
| `Prealloc.InitialLists` | src/flogfs.c:470-485 | all nodes chained on the free list are a valid start |
| `Prealloc.Preallocator.Initialize` | src/flogfs.c:470-485 | nothing is available or pending, every node is free |
| `Prealloc.Preallocator.Contains` | src/flogfs.c:1636-1649 | the walk over the three lists finds a block if and only if it is available or pending |
| `Prealloc.Preallocator.Append` | src/flogfs.c:1656-1677 | the linked node array is that of the list with the entry at its end |
| `Prealloc.Preallocator.Push` | src/flogfs.c:1704-1723 | the block is the newest available one |
| `Prealloc.Preallocator.Pop` | src/flogfs.c:1725-1740 | first in, first out, and the block is pending |
| `Prealloc.Preallocator.RemovePending` | src/flogfs.c:1679-1702 | exactly this block leaves the pending list, if it is on it |
| `FileSystem.FlogFs.OpenPage` | src/flogfs.c:1742-1755 | whatever the cache said, the device's open page is the one asked for; a pending block stays pending if and only if the cache was right that this page is open |
| `FileSystem.FlogFs.OpenSector` | src/flogfs.c:1757-1759 | the next access to that sector number reaches that sector of that block |
| `FileSystem.FlogFs.CloseSector` | src/flogfs.c:1761-1763 | the cache makes no claim about the open page |
| `Image.InUseShows` | src/flogfs.c:526-551 | with no dirty file, every block in use has good statistics and a type, and no free block has a type |
| `Image.CommitRepresents` | src/flogfs.c:1438-1491 | a data sector and its spare written as the code does represent one more committed sector |
| `Image.TailRepresents` | src/flogfs.c:1413-1431 | the same for the TAIL sector with its link and count |
| `Image.RecordRepresents` | src/flogfs.c:1225-1237 | an allocation sector written into the first free record represents one more record |
| `Image.DeadRepresents` | src/flogfs.c:1333-1337 | an invalidation sector represents the record marked dead |
| `Allocator.StatisticsRead` | src/flogfs.c:1886-1889 | returns what sector 0 of that block holds |
| `Allocator.StatisticsWrite` | src/flogfs.c:1878-1884 | an erased block becomes one with statistics |
| `Allocator.AdoptsExactly` | src/flogfs.c:526-551 | the blocks that look free are the free ones and the one dirty block |
| `Allocator.PrimeTry` | src/flogfs.c:499-551 | one turn makes the block available if and only if it is not block 0, looks free and is not on a list; it is erased first unless its statistics are good, and nothing else is written |
| `Allocator.Prime` | src/flogfs.c:487-567 | the list afterwards is just what the search over the next random blocks gives, and the numbers drawn are just those used; blocks new on the list are erased unless their statistics are good, nothing in use or pending is touched; with no dirty file every available block is free |
| `Allocator.GatherExactly` | src/flogfs.c:499-551 | the search ends only when no node is left or 63 blocks have been drawn; of the blocks drawn exactly those become available that look free and are on no list, each once |
| `Allocator.LooksAreFree` | src/flogfs.c:526-551 | with no dirty file the blocks that look free are the free ones |
| `Allocator.AllocateBlock` | src/flogfs.c:1966-1988 | gives the oldest available block, or none exactly if none was on the list, which stays empty then; the others stay on the list and nothing is drawn, but if it was the last, the list afterwards is just what a search over the next random blocks gives; the block is free, pending and nobody else's |
| `TablesProofs.NoBlockOwnedTwice` | src/flogfs.c:1390-1491 | the inode chain and all file chains are acyclic and disjoint |
| `TablesProofs.CommitKeeps` | src/flogfs.c:1438-1491 | committing a data sector keeps the invariant |
| `TablesProofs.TailKeeps` | src/flogfs.c:1393-1436 | completing a block and linking a free one keeps it |
| `TablesProofs.LinkInodeKeeps` | src/flogfs.c:1840-1872 | extending the inode chain keeps it, with a free record left in the block before |
| `TablesProofs.CreateKeeps` | src/flogfs.c:1202-1249 | a new record and a new first block keep it, and names stay unique |
| `TablesProofs.OpenKeeps` | src/flogfs.c:1161-1201 | so does opening an existing file |
| `TablesProofs.CloseKeeps` | src/flogfs.c:1275-1308 | so does dropping writers that are not dirty |
| `TablesProofs.RemoveKeeps` | src/flogfs.c:1310-1350 | marking a record dead and freeing its chain keeps it if and only if the file has no open writer |
| `Refinement.CommitMeans` | src/flogfs.c:1438-1491 | the content of one file grows by the data, all of it is committed, no other file changes |
| `Refinement.TailMeans` | src/flogfs.c:1393-1436 | the same across the end of a block |
| `Refinement.CreateMeans` | src/flogfs.c:1202-1249 | the user's map gains one empty file and nothing else changes |
| `Refinement.CloseMeans` | src/flogfs.c:1275-1308 | dropped writers leave what they had committed, others are untouched |
| `Refinement.CloseLosesNothing` | src/flogfs.c:1275-1308 | the user's map stays the same if and only if the dropped writers had nothing buffered |
| `Refinement.RemoveMeans` | src/flogfs.c:1310-1350 | the user's map loses exactly one name |
| `Counts.TailCounts` | src/flogfs.c:1419-1423 | after a block is completed the counts of the file are right if and only if they were and the handle's counter was |
| `Writer.ProgramSector` | src/flogfs.c:1425-1431 | the two writes and the spare only hit erased bytes, and leave header, buffer, data and spare in the sector |
| `Writer.FlushDirtyBlock` | src/flogfs.c:2036-2043 | the dirty file's INIT sector is committed, whoever's it is, and nothing is dirty any more |
| `Writer.FlushAndAllocate` | src/flogfs.c:1398-1405 | flushing first makes the allocation safe; the block is the oldest of the list, which is refilled if and only if it was the last; every open handle stays as it was |
| `Writer.CommitData` | src/flogfs.c:1438-1491 | a data sector committed on flash and in the handle, which moves to the next sector |
| `Writer.CommitTail` | src/flogfs.c:1393-1436 | the TAIL sector committed with link, timestamp and count, the oldest available block linked and dirty; or no block and nothing changed but the flush |
| `Writer.CommitFileSector` | src/flogfs.c:1390-1491 | appends the data to this file only, or fails exactly in a TAIL sector with no block available |
| `Writer.FlushWrite` | src/flogfs.c:1618-1634 | afterwards nothing of the file is in memory only; the content is unchanged, and so are the counts unless a block is completed; the assertions at its end hold |
| `Writer.WriteSome` | src/flogfs.c:888-904 | one turn commits a sector only when it is full, and completes a block only when there is no more room in it; it takes nothing only if the bytes would fill a TAIL sector and no block is available; it is a run of the machine |
| `Writer.Write` | src/flogfs.c:878-910 | the content becomes the old content followed by the bytes taken, for any length; fewer are taken only if the list of available blocks is empty and the rest would fill the TAIL sector, and then that has nothing new in its buffer; sectors are committed full; counts and counter together are right exactly if they were; no other file or handle changes; the timestamps used are the blocks completed, and those come off the front of the list |
| `Effects.WroteMeans` | src/flogfs.c:878-910 | in the user's map only the entry of the file written changes |
| `Inodes.UniversalGetNextBlock` | src/flogfs.c:1765-1775 | returns the next block of the chain, or none at its end |
| `Inodes.IteratorInitialize` | src/flogfs.c:1777-1793 | stands at the first record |
| `Inodes.IteratorNext` | src/flogfs.c:1807-1829 | moves to the next record, across blocks; the assertion fails if and only if the iterator is out of date and has passed the last record of its block |
| `Inodes.FindFile` | src/flogfs.c:2001-2034 | finds the id and first block if and only if the name is in the directory, else the first free record |
| `Inodes.LsIterate` | src/flogfs.c:1356-1385 | returns the next live name and stands behind it, or none if there are no more; the assertion in it fails if and only if the iterator is out of date and there is no live name before the last record of its block, which exists |
| `Inodes.ListFiles` | src/flogfs.c:1352-1385 | a complete listing gives the live names in order of creation |
| `Inodes.LiveNamesAreDirectory` | src/flogfs.c:1356-1385 | the listing has each name of the directory once and no other, agreeing with looking names up |
| `NewFile.PrepareNew` | src/flogfs.c:1831-1876 | the last record of a block may only be claimed when another block, the oldest available, is linked; in all other cases nothing happens; the user notices nothing |
| `NewFile.TailBlankUnlessEarly` | src/flogfs.c:1840-1860 | the TAIL sector about to be written is blank if and only if the chain has not been extended before |
| `NewFile.ClaimRecord` | src/flogfs.c:1219-1249 | an empty file of that name, with an id above all earlier ones, and its record on flash with a new timestamp; its handle stands at the INIT sector |
| `NewFile.OpenNew` | src/flogfs.c:1202-1249 | makes the file from the oldest available blocks, or fails and changes nothing for the user; it succeeds if there is an available block for the file, and one more if the inode chain must be extended, and fails if there is none; says exactly when a failure leaves the inode chain extended |
| `OpenClose.SizeByTailsRight` | src/flogfs.c:1035-1047 | with right counts, the size that skips completed blocks equals the slow count, modulo 32 bits |
| `OpenClose.FindLastBlock` | src/flogfs.c:1171-1180 | ends at the last block of the chain, with the sum of the counts before it |
| `OpenClose.FindCursor` | src/flogfs.c:1183-1201 | ends at the first sector not yet committed, in write order |
| `OpenClose.Reopen` | src/flogfs.c:1161-1201 | the handle stands where the next sector goes if and only if the file was not dirty; its size is what readers calculate, its counter is not restored |
| `OpenClose.OpenWrite` | src/flogfs.c:1137-1269 | opens the file of that name, makes it if there is none and enough blocks are available, or fails and changes nothing for the user |
| `OpenClose.CloseWrite` | src/flogfs.c:1275-1308 | the user's map is unchanged if and only if the position is not one that loses bytes; just the buffer is lost; directory, other files, counts and handles stay; a dirty file that is not flushed stays open to the file system |
| `OpenClose.LosesExactly` | src/flogfs.c:1297-1299 | the positions that lose or forget bytes are those not flushed with something buffered |
| `Remove.InvalidateLink` | src/flogfs.c:1903-1941 | one block of the chain erased; the two assertions are unreachable |
| `Remove.InvalidateChain` | src/flogfs.c:1891-1945 | erases the chain from its first block to its last one with a committed sector, writes the statistics of each, touches no other block, and ends; one timestamp a block |
| `Remove.Rm` | src/flogfs.c:1310-1350 | the name is gone, all blocks of the file are free and hold but their statistics, the record on flash is invalidated with the last block of the chain and a new timestamp; every other block and file and handle is as before, and so is the list of available blocks; or there was no such file |
| `Inodes.DeadShows` | src/flogfs.c:1333-1337 | a record on flash is invalidated if and only if its file has been removed, and names the last block that the file had |
| `Reader.SeenIsCommitted` | src/flogfs.c:816-824 | what readers see is all that is committed if and only if no block with an empty INIT sector holds data in the next |
| `Reader.EarlyFlushHides` | src/flogfs.c:816-824 | a file flushed by the creation of another before it has data hides what its next sector gets |
| `Reader.CalcFileSize` | src/flogfs.c:979-1052 | the walk returns the counts of the completed blocks and the sectors of the last one |
| `Reader.OpenRead` | src/flogfs.c:680-738 | opens if and only if the name is short enough and there; the reader is fit for use, with all that is seen ahead of it, exactly if the first sector is committed |
| `Reader.NextSector` | src/flogfs.c:787-851 | moves on if and only if the next sector of this file has been committed; else there is nothing ahead and the reader stays |
| `Reader.Read` | src/flogfs.c:777-876 | returns the next bytes ahead of the reader, as many as asked for or as there are, so that successive reads are consecutive slices |
| `Reader.ReadsBack` | src/flogfs.c:680-738 | once everything is flushed, what is ahead of a freshly opened reader is the content of the file if and only if no block hides anything |
| `Reader.ReaderResumes` | src/flogfs.c:785-797 | after later commits a reader is where it was and more is ahead of it: nothing lost, nothing repeated |
| `Seek.SeekSectors` | src/flogfs.c:937-977 | finds the first sector of one block that reaches the position, or returns where that block ends, whatever position the block is believed to start at |
| `Seek.SeekBlocks` | src/flogfs.c:979-1033 | with any counts, ends just where a walk ends that skips the blocks ending before the position by their count, scans the others and goes on if the position is not there; it fails only behind the last block |
| `Seek.WalkExactly` | src/flogfs.c:979-1033 | with right counts, the walk finds the first sector of the file that reaches the position, if and only if that is within the committed size and something is committed |
| `Seek.WalkFindsAll` | src/flogfs.c:1064-1095 | with counts that are too high, but none too low, the walk still finds every position within the committed size |
| `Seek.FirstIsUnique` | src/flogfs.c:1082-1091 | a position has one place |
| `Seek.FitExactly` | src/flogfs.c:1082-1091 | the offset without the header is right if and only if the position is not within an INIT or TAIL sector, short of its end |
| `Seek.StartIsHeadered` | src/flogfs.c:1082-1091 | the start of a file with data in its first sector is such a position |
| `Seek.SeekTo` | src/flogfs.c:1097-1131 | the reader is where the walk ends, whatever the counts are; if no count is too low every position within the committed size is found; with right counts the reader is in the first sector that reaches the position, it is fit for use if and only if the position is not within an INIT or TAIL sector, and then the committed content from there on is ahead of it if and only if no later block hides anything |
| `Seek.SeekThenRead` | src/flogfs.c:1064-1131 | the same for any reader in that place: what is ahead after a seek is the committed content from that position on, exactly if no later block hides anything |
| `Mount.Format` | src/flogfs.c:382-468 | an empty, valid volume, whatever was on the device; all blocks but the first are erased |
| `Mount.FindFirstInode` | src/flogfs.c:569-601 | the first of 32 blocks that is an inode block number 0 of this version, or none |
| `Mount.Inspect` | src/flogfs.c:603-620 | the highest id ever given, those of removed files included |
| `Mount.MountVolume` | src/flogfs.c:622-663 | finds the volume that is on the flash, unchanged; fails exactly if there is none; the list of available blocks is just what a search over the next random blocks gives; no block in use is touched; with no dirty file all invariants hold |
| `Mount.Remount` | src/flogfs.c:365-380 | initializing and mounting gives the committed volume; the user's map is the same if and only if nothing was buffered; all invariants hold if no file was dirty |
| `Mount.PrimingTakesOwned` | src/flogfs.c:526-551 | priming can take a block that a chain owns if and only if a file is dirty |
| `Mount.PrimeForgotten` | src/flogfs.c:499-551 | after mounting with a dirty file, a turn of priming that hits on its last block makes that available |
| `Mount.InUseShowsIff` | src/flogfs.c:526-551 | blocks in use are told from free ones if and only if no file is dirty |
| `Runs.AlwaysInOrder` | src/flogfs.c:1390-1405 | in every state reachable from a formatted volume the invariant holds and no block is owned twice |
| `Runs.RunMeans` | src/flogfs.c:1137-1350 | over every run, the volume is the map that the corresponding operations on a map from names to contents give |
| `Runs.CutMeans` | src/flogfs.c:1275-1308 | dropping writers cuts their files to what they had committed |
| `Runs.UntouchedKept` | src/flogfs.c:1207-1223 | over every run, a file that it does not touch keeps its content, or its absence, even if a sector of it is flushed |
| `Runs.RunKeepsLog` | src/flogfs.c:1225-1230 | over every run records are only added or marked dead, dead ones stay as they are, a new id is above all earlier ones, and a removed id never comes back |
| `Runs.CommittedGrows` | src/flogfs.c:1390-1491 | what has been committed to a file is a prefix of what will be |
| `Runs.ReadersSurvive` | src/flogfs.c:777-876 | over every run in which its file is not removed, a reader stays in place and only gains data at the end |
| `CountRuns.RunCounts` | src/flogfs.c:1161-1201 | over every run, the counts of a file are right at the end if and only if they were, and every handle that completes a block had the right counter when it opened the file |
| `CountRuns.SameHandleCounts` | src/flogfs.c:1413-1423 | tail summaries are right for a file whose blocks are all started and finished by the handle that made it |
| `CountRuns.RunFull` | src/flogfs.c:888-904 | over every run that commits only full sectors of a file, each completed block of it holds 512 bytes a sector but for its headers |
| `Sessions.SessionRun` | src/flogfs.c:878-910 | a sequence of calls is one run, and the kinds of the calls say which steps may be in it |
| `Sessions.SessionCounts` | src/flogfs.c:1161-1201 | over any sequence of calls, counts and counter of a file stay right if each handle that opens it holds the number of bytes in its last block |
| `Sessions.SessionSameHandle` | src/flogfs.c:1413-1423 | the counts of a file made in a sequence of calls that do not open it again are right |
| `Sessions.SessionFine` | src/flogfs.c:1161-1201 | over calls that neither open nor close the file, counts and counter together are right at the end exactly if they were; a wrong counter leaves a wrong count behind |
| `Sessions.SessionLeaves` | src/flogfs.c:878-910 | over any sequence of calls, a file that none of them is about keeps its content, or its absence |
| `Sessions.SessionFull` | src/flogfs.c:888-904 | over calls that flush no sector of a file, each block of it that is completed holds 512 bytes a sector but for its headers |
| `Sessions.IteratorAges` | src/flogfs.c:1777-1829 | whatever is done to the volume between two calls of a listing, its iterator keeps its place, and gets out of date if and only if it is in the last inode block and another is linked |
| `Scenarios.TailByteIsLost` | src/flogfs.c:1297-1299 | a reachable writer in TAIL, all sectors before it full, with one byte buffered loses it on closing |
| `Scenarios.FourBytesAreForgotten` | src/flogfs.c:1297-1299 | a reachable new file with four bytes is not flushed on closing, and is empty after mounting again |
| `Scenarios.LinkedTwice` | src/flogfs.c:1393-1436 | if such a block is linked to another file it has two owners |
| `Scenarios.ReopenedCountIsWrong` | src/flogfs.c:1161-1201 | a reachable reopened file, all of its sectors written full, gets a wrong count |
| `Scenarios.NewFileIsNotReadable` | src/flogfs.c:707-719 | a reachable empty file whose reader believes to have 0xFFFF bytes to go |
| `Scenarios.ExtendedEarly` | src/flogfs.c:1203-1218 | a reachable volume whose inode chain is extended with the record before still free |
| `Scenarios.ListingGivesUp` | src/flogfs.c:1807-1829 | a reachable volume on which a listing, interrupted by the making of a file, runs into the assertion |
| `Scenarios.SeekToStartIsNotFit` | src/flogfs.c:1082-1091 | a reachable file for which seeking to 0 succeeds and leaves a reader that is not fit |

## Left out

- Crashes and power loss in the middle of an operation: all that is in memory may be lost between operations only (`Remount`).
- Bad blocks and failing erases or page opens: both devices always report success.
- Block ages, wear levelling and the threshold argument of the allocator; the loop in flog_allocate_block is a single turn, because the block on the list is always a real one.
- Locks and interrupts: every lock function is empty, and each call is atomic here.
- The layout of structures in bytes: headers and spares are datatypes with the sizes the compiler gives them, and `Simulation` takes any encoding of those sizes; decoding is not modelled.
- The 0x00-erase build, the SD card backend, debug output, the operation log of the mapped device, and opening the mapping.
- flog_walk, flogfs_check_exists, flogfs_read_tell and the size getters: they add nothing to the lookups and walks above.
- The lists of open readers and writers: a handle that is not at the head of its list is refused by the close functions. `CloseWrite` is the case of the only writer, and its return value, which is not always set, is not modelled; closing a reader is left out.
- The buffer of a write handle is a sequence in the handle, because it is embedded in the structure and nothing else can point to it.
- Walks with callbacks: the size and the seek callback are built into the walks (`CalcFileSize`, `SeekBlocks`).
- OpenWrite: requires a name shorter than 32 characters (a longer one overflows its buffer), one writer a file, unless that was closed and its file is dirty; the handle of such a file is still in use and may not be used for another one; and that the inode chain is not extended a second time (see `TailBlankUnlessEarly`).
- Remount: a volume whose dirty block has become available is followed up to the allocation that links the block a second time (`LinkedTwice`), not beyond.
- Rm: requires that the file has no handle in use, that of a dirty file closed without a flush included (see `RemoveKeeps`). Readers of a removed file are not followed.
- IteratorNext: what the program does after the failed assertion is not modelled.
- PrepareNew: requires that the chain has not been extended early, or that no block is available (see `TailBlankUnlessEarly`).
- Timestamps are counted and must stay below the erased value, but their order across mounts is not modelled.
- ProgramSector: one method for the writes of both branches; the C code writes its buffer with the header already in it.
- FlashRandom: the stream of random numbers is arbitrary, and so nothing is said about how soon free blocks are found.
- FlogFs.constructor: starts with the preallocator's lists initialized, which the C code does at the first mount.
- FindFirstInode: requires 32 blocks, or an inode table that starts at block 0; the C code looks at 32 blocks whether there are as many or not.
- MountVolume: the flash either holds a volume or no inode table is found; a table that leads into anything else is not modelled.
- Initialize: the version is always 31337, and a volume of another version is not mounted.
- Write: 32-bit timestamps must not run out; it asks for two more than the blocks that the bytes can complete.
