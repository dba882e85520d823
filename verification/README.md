# YAFFS2 and path names, verified

A model in Dafny of the log-structured flash file system under `fs/yaffs2`, and of path names across mounts under
`fs/core`, with proofs of what these are meant to guarantee. `dafny verify dfyconfig.toml` checks all of it.

What is modelled and proved, one file for each part:

* **FlashLog, LogMeaning, BackwardScan**: what a log of pages means, defined by replaying it oldest first and, in
  other words, page by page; and the mount-time scan, which reads it newest first and finds exactly that.
* **Journal, DeviceLog, Mount**: what appending, copying and erasing pages does to the meaning of a log; that a device
  programs its pages in the order in which a scan reads them; and that the test the collector makes before it frees a
  block with a shrink header is enough.
* **LiveFile, Contents**: a file that is written, stretched, cut and flushed on a device whose blocks are collected
  meanwhile and on which other objects come and go. After any run a scan of the blocks of the device finds the very
  same file: its chunks, its header, its size, and the bytes that the same operations make of a plain byte sequence.
  Nothing goes wrong on the way unless a page is refused, or a cut is one of those that go wrong; and whether a page
  is refused is decided by the room on the device before the run, if nothing is collected.
* **Restart, PowerCycle**: power comes back. One scan sets up all the books of the device again (block states, bitmap,
  counters, marks for shrink headers, objects), and they are in order again, so that everything said of a device in
  use holds of it; a file that had been flushed is there with the same bytes.
* **Space, Owners, Device**: the block manager and the garbage collector. Counters always equal a recount, every page
  in use has exactly one owner, the oldest-dirty value is a lower bound, and collecting, even if it is cut short or
  runs out of space, changes no byte that can be read. Writes and erases may fail.
* **ChunkBits**: the bytes of the chunk bitmap, which stand for the set of pages in use that the three above work
  with.
* **FileCache**: file contents behind the write-back cache. Any interleaving of writes, reads, resizes, flushes and
  evictions behaves as one zero-extended byte sequence for each file.
* **PackedLeaf, TnodeTree, ChunkAddress**: the tree from chunk ids to chunk numbers with its bit-packed leaves is a
  map; growing and pruning it change no lookup. The arithmetic of positions, widths and groups is exact.
* **CheckptStream, CheckptTnodes, CheckptObjs, CheckptSave, CheckptDamage**: the checkpoint byte stream over flash
  blocks; objects and the leaves of their tnode trees in it, which are read up to their markers; saving a device while
  its block states change under the saving, and restoring it. Exactly when a saved device can be restored is decided
  by conditions on the state before the save. A checkpoint with a wrong byte is refused.
* **QuickSort**: the three-way quicksort that orders the blocks for the scan.
* **Ecc, PackedTags**: the error correcting code corrects one bit and detects two, for blocks of any length and in its
  form for 256 bytes; packed tags survive one wrong bit.
* **HangingObjects**: after a scan, objects that hang loose are moved to lost+found; nothing judged rooted is unrooted
  by it.
* **NameVal**: the attribute buffer is a finite map, but for a record that ends where the buffer ends.
* **PathWalk**: walking a path leads to where its components say, whatever is mounted on the way; printing the working
  directory and walking to it undo each other.
* **Common, ChunkMath, Octets**: what the others share.

Classes keep the fields that the source updates in place; their methods are proved against functions and predicates on
values. Contents of a heap that the source reaches by pointers (tnodes, directory entries, objects) are values or maps
by number. Memory allocation succeeds. What comes from outside (a full device, a failing erase or write) is chosen
arbitrarily at every call; what names a file system has is a parameter of every walk. Constants say of a device
whether its writes may be refused (`mayFail`) or fail (`nandFails`), and of a file whether the collector runs in the
middle of its operations (`collects`); where they do not, the contracts say that everything is done. The ghost field
`refusals` of a device counts how often a page was asked for and there was none. The ghost field `adrift` of a file
says that a write that could use the reserved blocks found no page all the same, or that a cut dropped all of it,
after which nothing is promised of a scan.

Positions and sizes are of type `loff_t`, which is an `unsigned long` (include/types.h:16, marked as to be widened):
32 bits on the ARM processors for which the repository is built. FileCache and BackwardScan take its width as a
parameter, 32 or 64 bits; LiveFile has 32. Requests are split into chunks as `yaffs_addr_to_chunk` does it, wherever
they lie; what is promised of the bytes of a file is promised up to the position from which on that goes wrong.

The code differs from what its comments and its callers expect in these respects; each is stated as a theorem, with
the exact condition or an instance:

* A write of a whole chunk that fails invalidates the cache entry of the chunk all the same, so that dirty data in it
  are lost (`FileCache.FailedWritePast`, `FileCache.FailedWriteLoses`).
* Bytes written beyond the largest chunk id count as written and are dropped (`FileCache.FileSys.WrFile`,
  `FileCache.WriteBeyond`).
* A write that starts beyond the end of a file and writes nothing enlarges the file in memory; if the gap was not
  filled with zeros, the size is lost in a crash (`LiveFile.File.WrFile`, `LiveFile.LostSize`).
* A header that the collector copies in the middle of a write hides chunks beyond the size it carries from a scan,
  until the next header is written (`Journal.CopyHides`).
* The start of a chunk is a 32-bit product in the scan; with wider sizes, for a file of 4 GB or more, chunks that were
  cut off come back. With sizes of 32 bits the largest size wraps, so that the last chunk below 4 GB is not found
  (`BackwardScan.ScansRightIff`, `BackwardScan.CutLogWrong`, `BackwardScan.SinglePageWrong`, `BackwardScan.FitsIn32`).
* The comparison of sequence numbers is not an order for numbers 2^31 or more apart (`BackwardScan.CompareAgreesIff`,
  `BackwardScan.FarApart`).
* A page whose copy fails during collection is skipped by all later passes over its block, so that the block is not
  freed any more (`Device.Dev.GcBlock`, `Device.StuckForGood`).
* A checkpoint whose last page finds no block is reported saved, and cannot be restored; nor can one of more blocks
  than the reader's list has room for (`CheckptSave.SaveThenRestore`, `CheckptSave.LastPageLost`,
  `CheckptSave.TooManyBlocks`).
* Bytes of a checkpoint that change places with their neighbours are not noticed (`CheckptDamage.SwapHides`); its
  checksum is determined by the sum of the bytes and their exclusive or (`CheckptDamage.SameSumIff`).
* A directory tree more than a hundred levels deep is taken for hanging (`HangingObjects.DeepNestHangs`).
* A single wrong bit can make a page look unused, if it was the only zero bit of its sequence number
  (`PackedTags.FlippedTags`, `PackedTags.HiddenPage`, `PackedTags.PageHidden`).
* File positions are split exactly only below a limit; a write beyond it lands in the chunks at the start of the file
  (`ChunkAddress.AddrToChunkExact`, `ChunkAddress.PastTheLimit`, `ChunkAddress.SplitExactIff`,
  `ChunkAddress.BeyondTheLimit`, `FileCache.WriteWraps`).
* Cutting a file to a size less than a chunk below 4 GB, with sizes of 32 bits, drops all of its chunks: the end of a
  chunk that starts there does not fit (`LiveFile.StartDelIs`, `FileCache.FileSys.ResizeFile`,
  `FileCache.CutLosesAll`). As long as the pages have not been erased, a scan brings them back (`LiveFile.CutFinds`,
  `LiveFile.CutComesBack`).
* The two counters of a block are signed bit fields of ten bits, which is enough exactly if a block has at most 511
  pages; any number from 2 on is accepted (`Space.CountersFitIff`, `Space.CounterWraps`).
* An attribute whose record ends at the end of the buffer is set with success and not found, until one before it is
  deleted (`NameVal.SetGets`, `NameVal.DelGets`, `NameVal.SetAndGone`). Replacing a record by a longer one while
  another is hidden that way is accepted, and writes outside of the buffer (`NameVal.Set`, `NameVal.OverrunIff`,
  `NameVal.SetBeyond`). Four zeros behind a new record are written even where the buffer ends before them.
* Of a working directory deeper than 256 levels only the last 256 are printed (`PathWalk.Vfs.ThereAndBack`,
  `PathWalk.TooDeep`).

## Model

| member | source | states |
|---|---|---|
| `BackwardScan.ScanBackwards` | fs/yaffs2/yaffs_yaffs2.c:1349-1527 | for every device image, scanning the listed blocks last to first finds for every object with chunks that can be found where they are (`Fitting`) exactly the chunk map, size and header that a first-to-last replay of their pages gives, and that the pages say one by one: a chunk is found exactly if its last copy is not taken away by a later header; blocks are listed oldest first if their sequence numbers are pairwise less than 2^31 apart |
| `BackwardScan.OrderBlocks` | fs/yaffs2/yaffs_yaffs2.c:1395-1450 | the blocks scanned are those with a plausible sequence number, each once; by increasing sequence number if these are pairwise less than 2^31 apart |
| `BackwardScan.SortIndex` | fs/yaffs2/yaffs_yaffs2.c:1449-1450 | the block index is a permutation of what it was, sorted by the source's comparison if that is an order on it |
| `BackwardScan.IndexBlocks` | fs/yaffs2/yaffs_yaffs2.c:1395-1445 | the index lists every block to be scanned exactly once |
| `BackwardScan.ScanBlock` | fs/yaffs2/yaffs_yaffs2.c:1463-1489 | pages of a block are scanned last first, which keeps the scan invariant for every object |
| `BackwardScan.ScanChunk` | fs/yaffs2/yaffs_yaffs2.c:933-1343 | one page takes the scan invariant of every object from the pages above it to the pages from it on; pages with bad tags, or with another sequence number than their block, change nothing |
| `BackwardScan.ScanDataStep` | fs/yaffs2/yaffs_yaffs2.c:1037-1084 | a data page that starts below the shrink size fills in its chunk only if no newer copy was met, and that is what the replay says, as long as its start, a wrapping 32-bit product in the source, and its end fit |
| `BackwardScan.ScanHeaderStep` | fs/yaffs2/yaffs_yaffs2.c:1151-1195 | the newest header gives the size; an older one only lowers the shrink size, and only if it is a shrink header or put the file among the deleted ones |
| `BackwardScan.CompareIsOrder` | fs/yaffs2/yaffs_yaffs2.c:920-931 | for sequence numbers pairwise less than 2^31 apart the comparison is a total preorder, that of the numbers |
| `BackwardScan.CompareAgreesIff` | fs/yaffs2/yaffs_yaffs2.c:920-931 | the comparison agrees with the order of two sequence numbers exactly if they are less than 2^31 apart |
| `BackwardScan.FarApart` | fs/yaffs2/yaffs_yaffs2.c:920-931 | two blocks that are both scanned, each of which compares as older than the other |
| `BackwardScan.ScansRightIff` | fs/yaffs2/yaffs_yaffs2.c:1037-1044 | for sizes of any width, every log with chunks up to an id is scanned rightly exactly if the start of that chunk fits into 32 bits and is below the largest size, itself cut to the width, and its end can be a size |
| `BackwardScan.CutLogWrong` | fs/yaffs2/yaffs_yaffs2.c:1037-1044 | a log of two pages that is scanned wrongly if the start does not fit: a chunk that was cut off comes back |
| `BackwardScan.SinglePageWrong` | fs/yaffs2/yaffs_yaffs2.c:1037-1084 | a log of one page that is scanned wrongly if the largest size or the end of the chunk do not fit |
| `BackwardScan.FitsIn32` | fs/yaffs2/yaffs_guts.c:699-702 | with sizes of 32 bits and chunks of a multiple of 16 bytes, these are the chunks that end below 2^32, and the largest size comes out as a chunk below 2^32 |
| `FlashLog.SurvivorIsRaw` | fs/yaffs2/yaffs_yaffs2.c:1037-1084 | a logged copy that no later page replaces or cuts off is the one the file has |
| `FlashLog.RawHasSurvivor` | fs/yaffs2/yaffs_yaffs2.c:1037-1084 | every chunk of a recovered file comes from a logged copy that no later page replaces or cuts off |
| `LogMeaning.FoundIff` | fs/yaffs2/yaffs_yaffs2.c:1037-1183 | said of single pages, with the numbers written out: a chunk is found at an address exactly if the log has a copy of it there that no later copy replaces, that starts below the size of the last header, and that no earlier header after it takes away, a shrink header from its size on, one in the directory of unlinked or of deleted files in any case |
| `LogMeaning.SizeIs` | fs/yaffs2/yaffs_yaffs2.c:1062-1076 | the size is the largest of those that the last header and the data pages behind it say |
| `LogMeaning.HeaderIs` | fs/yaffs2/yaffs_yaffs2.c:1214-1230 | the header found is the last one |
| `LogMeaning.CutsForGood` | fs/yaffs2/yaffs_yaffs2.c:1145-1183 | what was written before an old header in the directory of unlinked or deleted files never comes back, nor what was beyond the size of an old shrink header |
| `Journal.StepData` | fs/yaffs2/yaffs_guts.c:2985-3039 | a data page appended to the log of a file moves its end, if no other chunk can start between |
| `Journal.StepHeader` | fs/yaffs2/yaffs_guts.c:3264-3406 | a header with the size of the file makes a scan find the file, whatever is logged beyond that size |
| `Journal.CopyHides` | fs/yaffs2/yaffs_guts.c:2484-2511 | a header copied in the middle of a write, with the size from before, hides from a scan exactly the chunks that start beyond that size |
| `Journal.StepCopy` | fs/yaffs2/yaffs_guts.c:2517-2535 | copying a current data page leaves the meaning of the log |
| `Journal.EraseInStep` | fs/yaffs2/yaffs_guts.c:2316-2393 | the log without the pages of a block means the same file, if the block holds nothing current and none of its cuts matters to a page outside |
| `Journal.HarmlessLasts` | fs/yaffs2/yaffs_yaffs2.c:119-134 | that its cuts do not matter stays true while pages are programmed outside the block |
| `DeviceLog.GuardVets` | fs/yaffs2/yaffs_yaffs2.c:119-134 | if no full block with discarded pages is older than a block, no page outside of it needs a cut in it: what the collector tests is enough |
| `DeviceLog.TakePageJournaled` | fs/yaffs2/yaffs_guts.c:425-475 | pages are given out by increasing sequence number of their blocks, and position in them |
| `DeviceLog.CopiesPage` | fs/yaffs2/yaffs_guts.c:2473-2535 | a page copied by the collector keeps the log of its file in step |
| `Mount.YoungIsNear` | fs/yaffs2/yaffs_yaffs2.c:920-931 | as long as fewer than 2^31 sequence numbers have been used they are all near to each other |
| `Restart.PowerOn` | fs/yaffs2/yaffs_yaffs2.c:1349-1527 | after a scan block states, bitmap, counters, marks and objects are those of a device in order; every object is what the log means, with the pages it had; full blocks of which nothing is in use are erased, but for those with a shrink header and the newest one |
| `Restart.InOrderAgain` | fs/yaffs2/yaffs_yaffs2.c:1456-1505 | the books set up by the scan balance, every page in use has one owner, the log is that of the device, and a block without a mark has no cut in it |
| `Restart.Scanner.QueryBlocks` | fs/yaffs2/yaffs_yaffs2.c:1395-1445 | the blocks reported as erased are counted, the others are to be scanned, and the highest sequence number is theirs |
| `Restart.Scanner.ScanBlocks` | fs/yaffs2/yaffs_yaffs2.c:1456-1503 | every page of every block in service is read, newest block first; blocks are empty exactly if nothing has been programmed in them; the blocks listed to be erased are exactly the full ones without a page in use or a shrink header; a block marked to have a shrink header has one |
| `Restart.Scanner.ScanOne` | fs/yaffs2/yaffs_yaffs2.c:1463-1503 | the pages of a block are read last one first; it is listed exactly if nothing in it is in use, it has no shrink header, and it is not the one to go on with; it is empty exactly if nothing has been programmed in it, and the newest block goes on exactly behind its last programmed page |
| `Restart.Scanner.UsedPage` | fs/yaffs2/yaffs_yaffs2.c:1037-1286 | a page that was programmed is counted and, if a newer copy, a cut or a newer header was met before, given up again; the counters stay right |
| `Restart.Scanner.BlankPage` | fs/yaffs2/yaffs_yaffs2.c:972-1018 | a page that was not programmed counts as free; in the newest block it is where writing goes on |
| `Restart.Scanner.SkipRest` | fs/yaffs2/yaffs_yaffs2.c:1505-1505 | afterwards no block is being allocated from, and the counters are the same |
| `Restart.OwnedNow` | fs/yaffs2/yaffs_yaffs2.c:1045-1092 | the pages in use are exactly those that the objects found point to |
| `Restart.GuardedNow` | fs/yaffs2/yaffs_yaffs2.c:1190-1286 | a block without a mark has no cut in it that could matter |
| `Restart.CurrentNow` | fs/yaffs2/yaffs_yaffs2.c:1349-1527 | chunks and headers of the objects found are current in the log |
| `PowerCycle.LoseAndRegain` | fs/yaffs2/yaffs_yaffs2.c:1349-1527 | a file that had been flushed is there with the same bytes after power was lost and came back, and is in step with the log of a device in order |
| `Mount.ImageIsLog` | fs/yaffs2/yaffs_yaffs2.c:1395-1489 | the pages of the blocks of a device, block by block in the order of the sequence numbers, are its log |
| `LiveFile.File.WrFile` | fs/yaffs2/yaffs_guts.c:3666-3671 | for every request whose end is a 32-bit size: patches the bytes of the file and keeps the live file equal to what a scan would find; the size a crash would leave is the live size exactly if something was written, the gap was filled, or the write started inside the file; if no page fails, less than all is written only when there is no page left outside of the reserve, be blocks collected meanwhile or not; with room for it and no collection in between, all is written, and the size is right exactly if bytes are written at all or the gap is smaller than four chunks |
| `LiveFile.AnyRun` | fs/yaffs2/yaffs_yaffs2.c:1349-1527 | after any run of writes, resizes, flushes, collections and operations on other objects, and a flush, a scan of the blocks of the device finds the live chunk map and header of the file, its size, and exactly the bytes that the operations make of a plain byte sequence; on a device whose pages do not fail this holds for every file found before, and every write is done as a whole, if no size is less than a chunk below 2^32 and no page is refused during the run, however blocks are collected, or there is room for the run and nothing is collected; the chunks can be told by a scan if nothing reaches beyond the limit for that |
| `LiveFile.RunAll` | fs/yaffs2/yaffs_guts.c:3666-3808 | the operations of a run, one after the other: the bytes are those that they make of a byte sequence |
| `LiveFile.NeedAtMost` | fs/yaffs2/yaffs_guts.c:3497-3664 | a bound on the pages that an operation of a run needs |
| `LiveFile.ShortRun` | fs/yaffs2/yaffs_guts.c:3666-3808 | an instance of a run, with the bytes that the file has then |
| `LiveFile.Perform` | fs/yaffs2/yaffs_guts.c:3666-3808 | what each operation makes of the bytes of the file: a write patches them, a resize cuts them or extends them with zeros, all others leave them; with room for it, or if no page is refused, a write is done as a whole, and nothing goes wrong exactly unless it is a cut to less than a chunk below 2^32 |
| `LiveFile.File.Remount` | fs/yaffs2/yaffs_yaffs2.c:1349-1527 | a scan finds the live chunk map and header of a settled file, and its size and bytes if the size is known |
| `LiveFile.LostSize` | fs/yaffs2/yaffs_yaffs2.c:831-913 | an instance in which the size a crash would leave is not the live one: a write of no bytes beyond a large hole |
| `LiveFile.File.DoFileWr` | fs/yaffs2/yaffs_guts.c:3497-3664 | for every request whose end is a 32-bit size: chunk by chunk writing keeps the log in step with the file, for as many bytes as find space; the size a crash would leave stays right exactly if something was written or the write starts inside the file; if no page fails it stops short only when there is none left outside of the reserve |
| `LiveFile.File.WrLoop` | fs/yaffs2/yaffs_guts.c:3515-3660 | the loop over the chunks of a request keeps the log in step with the part of the file written so far; if no page fails it stops short only when there is none left outside of the reserve |
| `LiveFile.File.WrPart` | fs/yaffs2/yaffs_guts.c:3515-3655 | one chunk of a request: the logged page ends where the file will end, so that a stale copy below the size is always followed by a newer one |
| `LiveFile.PartOf` | fs/yaffs2/yaffs_guts.c:3526-3562 | the part of a request in one chunk, and the number of bytes to program for it: the page ends where the request or the file ends, unless the file goes on beyond the chunk; a position beyond 32 bits is taken for what these say |
| `LiveFile.CutFinds` | fs/yaffs2/yaffs_yaffs2.c:1037-1084 | a scan finds all chunks below the size in the header that ends a cut, as long as their pages have not been erased |
| `LiveFile.CutComesBack` | fs/yaffs2/yaffs_yaffs2.c:1037-1084 | an instance: the log of a file of one byte, stretched to the largest size and made one byte shorter; memory has no chunk any more, and a scan finds the byte |
| `LiveFile.StartDelIs` | fs/yaffs2/yaffs_guts.c:3682-3696 | a cut starts at the first chunk that starts at or beyond the new size, exactly if the end of a chunk that starts there is a 32-bit position; otherwise at the first chunk of the file |
| `LiveFile.File.WrData` | fs/yaffs2/yaffs_guts.c:2985-3039 | a data page goes to a free address and replaces the old one in the file; chunks beyond the largest id are dropped silently; the collector may have run before; if no page fails one is refused only when there is none |
| `LiveFile.File.WriteHeader` | fs/yaffs2/yaffs_guts.c:3264-3406 | a header makes the logged size the live one; a shrink header also cuts what is logged beyond it; a refused one changes nothing, and if no page fails it is refused only when there is none; the page has the size, and is marked as a shrink header or not |
| `LiveFile.File.Collect` | fs/yaffs2/yaffs_guts.c:2539-2638 | collecting any blocks keeps the file in step, even in the middle of an operation on it |
| `LiveFile.File.Elsewhere` | fs/yaffs2/yaffs_guts.c:2985-3039 | whatever happens to other objects, the file stays in step and keeps its bytes |
| `LiveFile.File.HandleHole` | fs/yaffs2/yaffs_yaffs2.c:831-913 | afterwards no stale chunk is logged between the end of the file and the new offset, whether zeros or a shrink header were written; if no page is refused, zeros are written exactly if the hole is small and five pages are free outside of the reserve |
| `LiveFile.File.ZeroFill` | fs/yaffs2/yaffs_yaffs2.c:874-901 | zeros are written a chunk at a time up to the new size, or until space runs out; no byte changes |
| `LiveFile.File.ResizeFileDown` | fs/yaffs2/yaffs_guts.c:3725-3753 | exactly the chunks below the new size stay, and the one it falls into is written anew, if the end of a chunk that starts at the new size is a 32-bit position; otherwise no other chunk is left; it goes wrong otherwise only when there is no page left, not even in the reserve |
| `LiveFile.File.PruneChunks` | fs/yaffs2/yaffs_guts.c:3675-3723 | exactly the chunks from the one on that the split of the new size gives are dropped |
| `LiveFile.File.ResizeFile` | fs/yaffs2/yaffs_guts.c:3755-3791 | cutting or stretching keeps the live file equal to what a scan would find, cuts its bytes or extends them with zeros, and leaves a header with the new size that is no shrink header; if no page is refused, or there is room for ten pages, it goes wrong exactly for a cut to less than a chunk below 2^32 |
| `LiveFile.File.FlushFile` | fs/yaffs2/yaffs_guts.c:3793-3808 | afterwards a scan would find the live size, too; no byte changes |
| `Contents.PartStored` | fs/yaffs2/yaffs_guts.c:3526-3655 | of a chunk read, patched and written back as far as the file goes, all bytes are on flash: the rest is zero |
| `Contents.CutStored` | fs/yaffs2/yaffs_guts.c:3725-3753 | chunks deleted and the last one written back up to the new size leave the bytes below the new size and zeros from there on |
| `Contents.FoundIs` | fs/yaffs2/yaffs_yaffs2.c:1037-1084 | the bytes of the pages that a scan finds for a file are its bytes, if its chunks and size are found |
| `LiveFile.CreateFile` | fs/yaffs2/yaffs_guts.c:2122-2197 | a created object is found by a scan, whatever an earlier object of its number has left in the log, exactly if there is a page for its first header |
| `LiveFile.File.constructor` | fs/yaffs2/yaffs_guts.c:2122-2197 | a new file is in step with its first header exactly if there is a page for that |
| `QuickSort.Sort` | fs/yaffs2/yaffs_qsort.c:83-163 | terminates with a permutation of the array segment for every comparison by which an element equals itself, a sorted one if it is a total preorder on the elements; what lies outside is untouched |
| `QuickSort.Round` | fs/yaffs2/yaffs_qsort.c:90-161 | one turn of the tail loop: partition, sort the smaller front recursively, go on with the back |
| `QuickSort.Pass` | fs/yaffs2/yaffs_qsort.c:92-151 | three-way partition around that pivot, with the equal elements gathered in the middle; or the whole segment sorted by insertion |
| `QuickSort.Partition` | fs/yaffs2/yaffs_qsort.c:112-138 | the two scans meet with the equal elements at both ends, smaller ones before larger ones; if nothing is said to have been swapped the segment is as it was |
| `QuickSort.Gather` | fs/yaffs2/yaffs_qsort.c:147-151 | swapping the ends into the middle gives smaller, equal and larger elements in this order |
| `QuickSort.VecSwap` | fs/yaffs2/yaffs_qsort.c:51-68 | two disjoint runs of equal length change places |
| `QuickSort.ChoosePivot` | fs/yaffs2/yaffs_qsort.c:99-111 | the pivot is the middle element of seven, the median of the first, the middle and the last one up to forty, and the median of three medians of three, at distances of an eighth, beyond |
| `QuickSort.ThreeMedians` | fs/yaffs2/yaffs_qsort.c:103-108 | the three medians from which the pivot of a long segment is taken |
| `QuickSort.Med3` | fs/yaffs2/yaffs_qsort.c:71-76 | gives one of three positions, whose element is between the other two |
| `QuickSort.InsertionSort` | fs/yaffs2/yaffs_qsort.c:92-98 | sorts a segment by exchanging neighbours |
| `Device.Dev.FindAllocBlock` | fs/yaffs2/yaffs_guts.c:379-423 | finds an erased block exactly if the counter of erased blocks is not zero: the branch for a wrong counter is never reached |
| `Device.Dev.SearchErased` | fs/yaffs2/yaffs_guts.c:394-416 | the cyclic search from the last block taken always comes to an erased block |
| `Device.Dev.AllocChunk` | fs/yaffs2/yaffs_guts.c:425-475 | gives a page not in use, newer in sequence number and position than every page in the log; keeps all counters right, never disturbs a full or collecting block; finds one exactly if there is a block to take it from and the reserve is not touched without leave: without it more pages than the reserve are free even afterwards |
| `Device.Dev.SkipRestOfBlock` | fs/yaffs2/yaffs_guts.c:494-505 | giving up the rest of a block keeps all counters right |
| `Device.Dev.WriteNewChunk` | fs/yaffs2/yaffs_guts.c:507-605 | retries keep all counters and the log right; afterwards the page holds what was to be written, and pages in use before are as they were; if no page fails it succeeds exactly if a page can be had; otherwise it fails only when there is no page left, or when 321 of them failed |
| `Device.Dev.AbandonChunk` | fs/yaffs2/yaffs_guts.c:252-271 | a page that failed is deleted again, and its block gets no more writes |
| `Device.Dev.RetireBlock` | fs/yaffs2/yaffs_guts.c:611-651 | a block taken out of service leaves the counters right |
| `Device.Dev.BlockBecameDirty` | fs/yaffs2/yaffs_guts.c:2316-2393 | a block without pages in use whose cuts matter to no page outside is erased or retired, and always retired if it was to be; counters stay right, pages of other blocks stay, and what a scan makes of any object stays the same |
| `Device.Dev.ChunkDel` | fs/yaffs2/yaffs_guts.c:2927-2983 | deleting a page in use clears its bit and nothing else, and frees its block when it was the last one; a block that is to be retired is not erased |
| `Device.Dev.SoftDelChunk` | fs/yaffs2/yaffs_guts.c:1187-1201 | a soft-deleted page counts as free and keeps its bit |
| `Device.Dev.CountFreeChunks` | fs/yaffs2/yaffs_guts.c:4935-4958 | recounting block by block always gives the counter of free chunks |
| `ChunkBits.Bitmap.SetChunkBit` | fs/yaffs2/yaffs_bitmap.c:59-65 | the set of pages that the bitmap stands for gains this page and no other; bits beyond the last page of a block stay clear |
| `ChunkBits.Bitmap.ClearChunkBit` | fs/yaffs2/yaffs_bitmap.c:51-57 | the set loses this page and no other |
| `ChunkBits.Bitmap.CheckChunkBit` | fs/yaffs2/yaffs_bitmap.c:67-73 | whether the page is in the set |
| `ChunkBits.Bitmap.ClearChunkBits` | fs/yaffs2/yaffs_bitmap.c:44-49 | the set loses the pages of this block, and keeps all others |
| `ChunkBits.Bitmap.StillSomeChunks` | fs/yaffs2/yaffs_bitmap.c:75-86 | true exactly if a page of the block is in the set |
| `ChunkBits.Bitmap.CountChunkBits` | fs/yaffs2/yaffs_bitmap.c:88-98 | the number of pages of the block in the set |
| `ChunkBits.Bitmap.constructor` | fs/yaffs2/yaffs_guts.c:2291-2307 | a new bitmap stands for the empty set |
| `ChunkBits.Changed` | fs/yaffs2/yaffs_bitmap.c:51-65 | a byte changed in one bit changes the set by one page, whatever the number of pages in a block |
| `ChunkBits.BlockPages` | fs/yaffs2/yaffs_bitmap.c:75-98 | the pages of a block in the set are the bits of its bytes, padding included |
| `Space.TakePageBalanced` | fs/yaffs2/yaffs_guts.c:425-475 | taking a page keeps: free chunks equal the recount, pages in use equal the bits set, 0 <= soft-deleted <= in use, erased blocks equal the empty ones, one block at most is being allocated from, and the oldest-dirty value is a lower bound |
| `Space.TakeBlockBalanced` | fs/yaffs2/yaffs_guts.c:379-423 | so does taking a block |
| `Space.SkipRestBalanced` | fs/yaffs2/yaffs_guts.c:494-505 | so does giving up the rest of a block |
| `Space.SoftDeleteBalanced` | fs/yaffs2/yaffs_guts.c:1187-1201 | so does soft deletion |
| `Space.ForgetBalanced` | fs/yaffs2/yaffs_guts.c:2446-2472 | so does throwing away a soft-deleted page |
| `Space.ReleaseBalanced` | fs/yaffs2/yaffs_guts.c:2927-2983 | so does deleting a page |
| `Space.ErasedBalanced` | fs/yaffs2/yaffs_guts.c:2379-2391 | so does erasing a block |
| `Space.RetiredBalanced` | fs/yaffs2/yaffs_guts.c:611-651 | so does retiring a block |
| `Space.CollectBalanced` | fs/yaffs2/yaffs_guts.c:2559-2562 | so does starting to collect a block |
| `Space.SuspendBalanced` | fs/yaffs2/yaffs_guts.c:2600-2606 | so does putting a collection off |
| `Space.SoftAtMostUsed` | fs/yaffs2/yaffs_guts.c:2446-2472 | 0 <= soft-deleted pages <= pages in use <= pages of a block, in every block |
| `Space.CountersFitIff` | fs/yaffs2/yaffs_guts.h:288-289 | on every device whose books balance both counters of every block fit into their ten bits, exactly if a block has at most 511 pages |
| `Space.CounterWraps` | fs/yaffs2/yaffs_guts.c:425-475 | an instance: after 512 allocations in a block its counter reads -512, and the recount of free chunks is 1024 too high; a block of 512 pages all in use passes for one with discarded pages |
| `Space.ErasedExists` | fs/yaffs2/yaffs_guts.c:379-423 | a positive count of erased blocks means that there is one |
| `Device.Dev.CalcOldestDirtySeq` | fs/yaffs2/yaffs_yaffs2.c:42-70 | finds the smallest sequence number of the full blocks with discarded pages |
| `Device.Dev.BlockOkForGc` | fs/yaffs2/yaffs_yaffs2.c:119-134 | a block with a shrink header is given free only if no full block with discarded pages is older, and then none of its cuts matters to a page outside of it; if no such block was known before and there is one, it is given free exactly then |
| `Device.Dev.GcBlock` | fs/yaffs2/yaffs_guts.c:2539-2638 | a collection pass keeps counters, ownership and what a scan finds, and every chunk of every object reads the same bytes, also when it stops after five copies or a copy fails; the block is freed exactly if all copies succeed, no page before the position at the start is in use, and there are no more pages in use than the quota; when it is freed, no soft-deleted file without data is left, and the next pass starts at the first page of its block |
| `Device.StuckForGood` | fs/yaffs2/yaffs_guts.c:2579-2638 | an instance: a header whose copy fails once is skipped by every later pass, and its block is never freed |
| `Device.Dev.GcPass` | fs/yaffs2/yaffs_guts.c:2559-2596 | the block is being collected or has been freed, no other one is being collected |
| `Device.Dev.GcCopyLoop` | fs/yaffs2/yaffs_guts.c:2579-2595 | pages from the position at the start to the one at the end are dealt with, the others are left; the block is freed under exactly these conditions |
| `Device.Dev.GcProcessChunk` | fs/yaffs2/yaffs_guts.c:2395-2537 | a page is thrown away if its file is soft-deleted, copied otherwise, or left where it is for lack of space; nothing reads differently |
| `Device.Dev.GcCopy` | fs/yaffs2/yaffs_guts.c:2473-2535 | the copy takes over the ownership of the original, in another block; a copied header has the current size and no shrink flag; what a scan makes of all files stays the same; if no page fails it succeeds exactly if a page can be had |
| `Device.Dev.GcForget` | fs/yaffs2/yaffs_guts.c:2446-2472 | throwing away a page of a soft-deleted file; files without any left are scheduled for deletion, and no others |
| `Device.Dev.Forgo` | fs/yaffs2/yaffs_guts.c:2446-2470 | a page of a soft-deleted file is counted neither as free nor as one of the file any more; with the last one the file is scheduled for deletion |
| `Device.Dev.DoCleanUps` | fs/yaffs2/yaffs_guts.c:2608-2624 | the scheduled files are deleted, and only those; all of them were soft-deleted, and none that is soft-deleted and without data is left |
| `Device.Dev.ReplacePage` | fs/yaffs2/yaffs_guts.c:2985-3039 | a page written replaces the one before it in what can be read, and nothing else does change; the object has exactly this page then |
| `Device.Dev.WrDataObj` | fs/yaffs2/yaffs_guts.c:2985-3039 | as above for data chunks; ids beyond the largest one are dropped and the only ones that give 0 |
| `Device.Dev.UpdateOh` | fs/yaffs2/yaffs_guts.c:3264-3406 | as above for headers, with the size of the object; a shrink header also cuts what is logged beyond it, and its block is marked |
| `Device.Dev.DropChunk` | fs/yaffs2/yaffs_guts.c:3705-3721 | afterwards the chunk is gone, all others read as before |
| `Device.Dev.SoftDelFile` | fs/yaffs2/yaffs_guts.c:1676-1699 | a deleted file reads as nothing, all others read as before; it is gone at once if it has no data |
| `Device.Dev.DelObj` | fs/yaffs2/yaffs_guts.c:1656-1674 | an object without data is deleted with its header |
| `Device.Dev.CreateObj` | fs/yaffs2/yaffs_guts.c:2122-2197 | a new object owns nothing yet |
| `Device.Dev.constructor` | fs/yaffs2/yaffs_guts.c:2269-2313 | an erased device has its books in order |
| `Owners.OwnedMove` | fs/yaffs2/yaffs_guts.c:2517-2535 | moving a page keeps every page in use owned by exactly one object, header or chunk |
| `Owners.ReadsMove` | fs/yaffs2/yaffs_guts.c:2517-2535 | moving a page changes no reading |
| `FileCache.FileSys.WrFile` | fs/yaffs2/yaffs_guts.c:3666-3671 | writing patches the zero-extended byte sequence of the file as far as it succeeds, with zeros for what lies in chunks beyond the largest id, if the request ends below the limit up to which positions are split right and the gap before it can be bridged below it, too; leaves other files alone wherever it lies; only a failed write of a whole chunk may lose cached bytes, and then none before it; unless writes are refused all of it counts as written |
| `FileCache.ClipIs` | fs/yaffs2/yaffs_guts.c:3526-3562 | nothing is dropped if the request ends within the chunks that flash can hold |
| `FileCache.WriteBeyond` | fs/yaffs2/yaffs_guts.c:2985-3006 | an instance: a byte written beyond them counts as written and reads as zero |
| `FileCache.FileSys.WrFirstPart` | fs/yaffs2/yaffs_guts.c:3526-3650 | for every position: the first part of a request is written in the chunk and at the offset that the split gives, and nowhere else |
| `FileCache.WriteWraps` | fs/yaffs2/yaffs_guts.c:3497-3664 | an instance: of two bytes written at the last 32-bit position the second becomes the first byte of the file |
| `FileCache.CutLosesAll` | fs/yaffs2/yaffs_guts.c:3675-3723 | an instance: a file of 2^32 - 1 bytes made one byte shorter has zeros only |
| `FileCache.FileSys.DoFileWr` | fs/yaffs2/yaffs_guts.c:3497-3664 | the same for writes that start anywhere, with the size it leaves; every other file stays; if it is written through, nothing gets dirty |
| `FileCache.FileSys.WrPart` | fs/yaffs2/yaffs_guts.c:3564-3647 | one chunk: through the cache, around it, or without one; exactly when it fails |
| `FileCache.FileSys.WrWhole` | fs/yaffs2/yaffs_guts.c:3637-3647 | a whole chunk goes around the cache; its entry is invalidated whether the write succeeded or not; it fails exactly without space outside of the reserve |
| `FileCache.FileSys.WrUncached` | fs/yaffs2/yaffs_guts.c:3619-3636 | without a cache a chunk is read, patched and written back; it fails exactly without space outside of the reserve |
| `FileCache.FileSys.WrCached` | fs/yaffs2/yaffs_guts.c:3570-3618 | through the cache: an entry is found or taken over, patched, and written through if asked for, so that nothing gets dirty; it fails exactly if there is no space and the chunk was not dirty before |
| `FileCache.WritebackReaches` | fs/yaffs2/yaffs_guts.c:3536-3560 | a chunk is programmed to its end, or to where the file ends then |
| `FileCache.FailedWritePast` | fs/yaffs2/yaffs_guts.c:3637-3647 | a failed write of a whole chunk leaves the contents alone exactly if the chunk held what is on flash |
| `FileCache.FailedWriteLoses` | fs/yaffs2/yaffs_guts.c:3637-3647 | an instance in which it does not |
| `FileCache.FileSys.FileRd` | fs/yaffs2/yaffs_guts.c:3418-3495 | reading below the limit gives the bytes of the zero-extended byte sequence within the chunks that flash can hold; reading anywhere changes no file |
| `FileCache.FileSys.RdPart` | fs/yaffs2/yaffs_guts.c:3442-3488 | one chunk: through the cache, whose entry counts as used then, or around it for whole chunks that are not cached; nothing gets dirty |
| `FileCache.FileSys.GrabChunkCache` | fs/yaffs2/yaffs_guts.c:1480-1525 | taking over an entry, with the file of the least recently used one flushed if that is dirty, changes no file |
| `FileCache.FileSys.LeastRecentlyUsed` | fs/yaffs2/yaffs_guts.c:1503-1516 | no entry has been used less recently |
| `FileCache.FileSys.FreeEntry` | fs/yaffs2/yaffs_guts.c:1467-1478 | a free entry, if there is one |
| `FileCache.FileSys.UseCache` | fs/yaffs2/yaffs_guts.c:1549-1570 | the entry gets the highest use counter, after the others but the first were reset if the counter was out of range; it becomes dirty on a write |
| `FileCache.FileSys.FlushFileCache` | fs/yaffs2/yaffs_guts.c:1392-1434 | all dirty entries of a file are written out and freed, lowest chunk first, or dropped if flash cannot hold them; no file changes |
| `FileCache.FileSys.LowestDirty` | fs/yaffs2/yaffs_guts.c:1406-1416 | the dirty entry with the lowest chunk id |
| `FileCache.FileSys.InvalidateChunkCache` | fs/yaffs2/yaffs_guts.c:1576-1586 | frees the entry of a chunk without writing it out |
| `FileCache.FileSys.InvalidateWholeCache` | fs/yaffs2/yaffs_guts.c:1591-1603 | frees all entries of a file without writing them out |
| `FileCache.FileSys.HandleHole` | fs/yaffs2/yaffs_yaffs2.c:831-913 | bridging a gap changes no byte of any file, if that is possible below the limit of positions; the size is the old one or the new one, and for a gap of four chunks or more nothing at all is written; other files stay in any case |
| `FileCache.FileSys.ZeroFill` | fs/yaffs2/yaffs_yaffs2.c:874-901 | zeros written at the end change no byte, below the limit of positions |
| `FileCache.FileSys.PruneChunks` | fs/yaffs2/yaffs_guts.c:3675-3723 | exactly the chunks between those are gone from flash that the splits of the new size and of the old one give |
| `FileCache.FileSys.ResizeFileDown` | fs/yaffs2/yaffs_guts.c:3725-3753 | below the limit: the file reads as before below the new size and as zero from it on; if the end of a chunk that starts at the new size does not fit into a position, the file reads as zero; other files read as before in any case |
| `FileCache.FileSys.ResizeFile` | fs/yaffs2/yaffs_guts.c:3755-3791 | below the limit: the byte sequence is cut or extended with zeros to the new size; if the end of a chunk that starts at the new size does not fit into a position, cutting leaves zeros only; other files keep their bytes in any case |
| `FileCache.FileSys.FlushFile` | fs/yaffs2/yaffs_guts.c:3793-3808 | afterwards flash alone holds the byte sequence of the file |
| `FileCache.FileSys.constructor` | fs/yaffs2/yaffs_guts.c:4767-4797 | all files are empty |
| `PackedLeaf.LoadTnode0` | fs/yaffs2/yaffs_guts.c:740-769 | a chunk number stored in an entry changes that entry only, for every width below 32 bits, straddling words included |
| `PackedLeaf.GetGroupBase` | fs/yaffs2/yaffs_guts.c:771-798 | gives back the entry, shifted by the group bits |
| `PackedLeaf.GroupContains` | fs/yaffs2/yaffs_guts.c:771-798 | what comes back is the start of a group of 2^g chunks that contains the chunk stored |
| `PackedLeaf.ExactWithoutGroups` | fs/yaffs2/yaffs_guts.c:740-798 | without groups a chunk number comes back exactly if it fits into the width |
| `TnodeTree.FileVar.FindTnode0` | fs/yaffs2/yaffs_guts.c:808-849 | finds the leaf of a chunk id, if the tree is tall enough and has it |
| `TnodeTree.FileVar.AddFindTnode0` | fs/yaffs2/yaffs_guts.c:863-956 | growing and filling up the tree changes no lookup, and a leaf passed in replaces exactly the sixteen entries of its leaf |
| `TnodeTree.FileVar.Grow` | fs/yaffs2/yaffs_guts.c:891-907 | making the tree taller changes no lookup |
| `TnodeTree.FileVar.RequiredDepth` | fs/yaffs2/yaffs_guts.c:884-889 | the height from which on a chunk id is within reach |
| `TnodeTree.FileVar.PutChunkInFile` | fs/yaffs2/yaffs_guts.c:1054-1185 | records a chunk number for one chunk id and changes no other |
| `TnodeTree.FileVar.FindChunkInFile` | fs/yaffs2/yaffs_guts.c:995-1020 | finds the first chunk in use with the right tags in the group recorded for this chunk id, if there is one |
| `TnodeTree.FileVar.FindDelFileChunk` | fs/yaffs2/yaffs_guts.c:1022-1052 | does so, too, and clears the entry of this chunk id only, exactly if a chunk was found |
| `TnodeTree.FileVar.PruneTree` | fs/yaffs2/yaffs_guts.c:1759-1799 | changes no lookup, keeps tnodes along the left edge, leaves no blank subtree off it, and no top with a leftmost child only |
| `TnodeTree.PruneReads` | fs/yaffs2/yaffs_guts.c:1716-1757 | pruning changes no lookup |
| `TnodeTree.PruneSpine` | fs/yaffs2/yaffs_guts.c:1716-1757 | pruning keeps the tnodes along the left edge |
| `TnodeTree.PruneFrees` | fs/yaffs2/yaffs_guts.c:1716-1757 | a subtree that may be freed is freed exactly if nothing is stored in it |
| `TnodeTree.SharedLeaf` | fs/yaffs2/yaffs_guts.c:834-846 | two chunk ids share a leaf exactly if they differ in their lowest four bits at most |
| `CheckptStream.Stream.OpenWrite` | fs/yaffs2/yaffs_checkptrw.c:138-191 | fails exactly without spare erased blocks; otherwise all old checkpoint blocks are erased and nothing is written yet |
| `CheckptStream.Stream.Erase` | fs/yaffs2/yaffs_checkptrw.c:27-62 | all checkpoint blocks become erased ones and are counted as such; no other page is touched |
| `CheckptStream.Stream.FindErasedBlock` | fs/yaffs2/yaffs_checkptrw.c:64-95 | the first erased block from the next position on |
| `CheckptStream.Stream.FlushBuffer` | fs/yaffs2/yaffs_checkptrw.c:202-255 | writes a page that was not written since its block was erased, with a hint to the next block; fails exactly if all pages of all erased blocks have been written |
| `CheckptStream.Stream.Wr` | fs/yaffs2/yaffs_checkptrw.c:257-285 | the exact number of bytes reported: those up to the first page that finds no block, that page included, and one byte of every later call; sum and exclusive or are those of all bytes given |
| `CheckptStream.Stream.CloseWrite` | fs/yaffs2/yaffs_checkptrw.c:358-384 | the pages on flash hold all bytes written, then zeros, exactly if they fit into the pages of all erased blocks, which is not reported; the counters give up the blocks taken and equal the recount again |
| `CheckptStream.Stream.OpenRead` | fs/yaffs2/yaffs_checkptrw.c:138-191 | nothing has been read yet, the block list has room for (end - start) / 16 + 2 blocks |
| `CheckptStream.Stream.FindBlock` | fs/yaffs2/yaffs_checkptrw.c:97-136 | the first block from the hint on that starts with a checkpoint page |
| `CheckptStream.Stream.Rd` | fs/yaffs2/yaffs_checkptrw.c:287-356 | reads the next bytes in order, whatever the sizes; fewer exactly at the end of the pages in the blocks that the list has room for; the blocks visited are those written, sum and exclusive or are those of all bytes so far |
| `CheckptStream.Stream.CloseRead` | fs/yaffs2/yaffs_checkptrw.c:365-384 | the blocks visited that are taken for erased become checkpoint blocks, and are taken off the counters |
| `CheckptStream.FindsNext` | fs/yaffs2/yaffs_checkptrw.c:97-136 | looking from the hint on, the first marked block is the one that was written next |
| `CheckptStream.NoPageBeyond` | fs/yaffs2/yaffs_checkptrw.c:307-339 | within a block the next page is the one written next, or none is marked |
| `CheckptSave.Save` | fs/yaffs2/yaffs_yaffs2.c:674-720 | success is reported exactly if the checkpoint fits into the pages of all erased blocks and one page more; all of it is on flash exactly if it fits into the pages of all erased blocks |
| `CheckptSave.LastPageLost` | fs/yaffs2/yaffs_checkptrw.c:358-384 | an instance: the last page finds no block, success is reported, and nothing can be restored |
| `CheckptSave.TooManyBlocks` | fs/yaffs2/yaffs_checkptrw.c:97-136 | an instance: all of the checkpoint is on flash, in more blocks than the list of the reader has room for |
| `CheckptSave.WrBlockInfo` | fs/yaffs2/yaffs_yaffs2.c:324-328 | each byte of the block records is streamed as it is then; whichever blocks are taken meanwhile, the records stay good for restoring the states after the save |
| `CheckptSave.WrSum` | fs/yaffs2/yaffs_yaffs2.c:638-652 | the checksum is that of all bytes before it, and it is accepted exactly if it fits |
| `CheckptSave.WrAll` | fs/yaffs2/yaffs_yaffs2.c:541-584 | pieces are appended one after another; it fails only if not all of them fit |
| `CheckptSave.Restore` | fs/yaffs2/yaffs_yaffs2.c:722-774 | succeeds exactly if the pages that the reader gets to see start with a checkpoint whose objects can be entered, and gives back what that says |
| `CheckptSave.RdCheckpt` | fs/yaffs2/yaffs_yaffs2.c:722-774 | reads markers, device values, block records, chunk bits, objects and checksum up to their markers; it fails exactly if the stream does not show a checkpoint |
| `CheckptSave.CheckptParses` | fs/yaffs2/yaffs_yaffs2.c:722-774 | a whole checkpoint says what was put into it, if and only if its objects can be entered |
| `CheckptSave.CheckptStable` | fs/yaffs2/yaffs_yaffs2.c:722-774 | whatever comes behind a checkpoint, it says the same |
| `CheckptSave.CutCheckpt` | fs/yaffs2/yaffs_yaffs2.c:722-774 | a checkpoint that is cut off says nothing |
| `CheckptDamage.SameSumIff` | fs/yaffs2/yaffs_checkptrw.c:193-200 | two checkpoints have the same checksum exactly if the sums of their bytes agree modulo 2^24, and their exclusive ors agree |
| `CheckptDamage.OneByteShows` | fs/yaffs2/yaffs_checkptrw.c:193-200 | a change of a single byte always changes the checksum |
| `CheckptDamage.SwapHides` | fs/yaffs2/yaffs_checkptrw.c:193-200 | two neighbouring bytes that change places never do |
| `CheckptDamage.DamageShows` | fs/yaffs2/yaffs_yaffs2.c:654-672 | a checkpoint with one wrong byte is refused, wherever that is outside of the object records; and nothing that ends where it ended is read from it, wherever it is |
| `CheckptSave.FindsCheckpt` | fs/yaffs2/yaffs_yaffs2.c:722-774 | the reader finds a saved checkpoint exactly if all of it fitted, into no more blocks than the list has room for |
| `CheckptSave.HowManyBlocks` | fs/yaffs2/yaffs_checkptrw.c:202-255 | a checkpoint takes as many blocks as its size needs, all but the last one full |
| `CheckptSave.SaveThenRestore` | fs/yaffs2/yaffs_yaffs2.c:786-829 | by conditions on the state before: when success is reported, and when a device that knows nothing but what is on flash can be restored; it then ends up like the one that was saved, with all block states, objects and tnode trees |
| `CheckptSave.StatesBack` | fs/yaffs2/yaffs_checkptrw.c:365-380 | turning visited blocks that were streamed out as erased into checkpoint blocks gives the states after the save |
| `CheckptSave.CountersBack` | fs/yaffs2/yaffs_yaffs2.c:280-307 | device values survive their 32-bit encoding |
| `CheckptSave.MarkerBytes` | fs/yaffs2/yaffs_yaffs2.c:251-283 | the bytes of a marker: its length, the magic number, the version, and which of the two it is |
| `CheckptObjs.RdObjs` | fs/yaffs2/yaffs_yaffs2.c:586-636 | reads object records up to the marker, and the leaves of files up to theirs, into trees; it fails exactly if there are no such objects to be read, or if they cannot be entered |
| `CheckptObjs.RdTnodes` | fs/yaffs2/yaffs_yaffs2.c:500-539 | reads leaves up to the marker and plugs them into the tree; it fails exactly if the stream ends or a chunk id is too large |
| `CheckptObjs.ObjsParse` | fs/yaffs2/yaffs_yaffs2.c:541-636 | objects and leaves as they were written are read back, without any number of them being stored |
| `CheckptObjs.ObjsFlat` | fs/yaffs2/yaffs_yaffs2.c:445-584 | the pieces in which the objects are written are what is read |
| `CheckptObjs.EntersIff` | fs/yaffs2/yaffs_yaffs2.c:390-443 | objects can be entered exactly if no id stands for objects of different types, and all parents are directories |
| `CheckptObjs.RecBack` | fs/yaffs2/yaffs_yaffs2.c:368-443 | an object record survives its encoding, size of 64 bits and packed flags included |
| `CheckptObjs.LeafBack` | fs/yaffs2/yaffs_yaffs2.c:469-477 | a leaf survives its encoding |
| `CheckptObjs.ObjsStable` | fs/yaffs2/yaffs_yaffs2.c:586-636 | whatever comes behind the objects, the same ones are read |
| `CheckptTnodes.Plug` | fs/yaffs2/yaffs_yaffs2.c:514-527 | a leaf is plugged into the tree; this fails exactly if its chunk id is too large |
| `CheckptTnodes.HeldIsLookup` | fs/yaffs2/yaffs_yaffs2.c:445-539 | plugging all leaves of a tree into an empty one gives the same chunk for every chunk id |
| `CheckptTnodes.DumpSound` | fs/yaffs2/yaffs_yaffs2.c:445-479 | a leaf is written with the first chunk id that it covers |
| `CheckptTnodes.DumpComplete` | fs/yaffs2/yaffs_yaffs2.c:445-479 | every leaf is written |
| `Ecc.TableIsLinear` | fs/yaffs2/yaffs_ecc.c:35-68 | the column parity table is the exclusive or of one pattern for each bit |
| `Ecc.CalcOther` | fs/yaffs2/yaffs_ecc.c:205-229 | column and line parities of a block of any length |
| `Ecc.CorrectOther` | fs/yaffs2/yaffs_ecc.c:231-281 | the correction in place is the one that the following lemmas are about |
| `Ecc.NoError` | fs/yaffs2/yaffs_ecc.c:231-281 | sound data are found to be sound |
| `Ecc.SingleError` | fs/yaffs2/yaffs_ecc.c:231-281 | one wrong data bit is put right, with result 1, for every length |
| `Ecc.CodeError` | fs/yaffs2/yaffs_ecc.c:231-281 | one wrong bit of the code leaves the data alone, with result 1 |
| `Ecc.DoubleError` | fs/yaffs2/yaffs_ecc.c:231-281 | two wrong data bits always give -1 |
| `Ecc.Calc` | fs/yaffs2/yaffs_ecc.c:72-131 | the code of a block of 256 bytes |
| `Ecc.Correct` | fs/yaffs2/yaffs_ecc.c:135-200 | the correction in place is the one that the following lemmas are about |
| `Ecc.NoErrorInBlock` | fs/yaffs2/yaffs_ecc.c:135-200 | sound data are found to be sound |
| `Ecc.SingleErrorInBlock` | fs/yaffs2/yaffs_ecc.c:135-200 | one wrong data bit is put right, with result 1 |
| `Ecc.CodeErrorInBlock` | fs/yaffs2/yaffs_ecc.c:135-200 | one wrong bit of the code leaves the data alone, with result 1 |
| `Ecc.DoubleErrorInBlock` | fs/yaffs2/yaffs_ecc.c:135-200 | two wrong data bits always give -1 |
| `PackedTags.PackUnpack` | fs/yaffs2/yaffs_packedtags2.c:63-158 | packing and unpacking gives back the meaningful fields exactly if the sequence number is not all ones, ids that share a word with flags are below 2^28, and data chunk ids are below 2^31 |
| `PackedTags.ExtraComesBack` | fs/yaffs2/yaffs_packedtags2.c:63-158 | parent, shrink and shadow flags, type and size or equivalent come back for headers that have them, but for files of 2^31 bytes and more; chunk id and number of bytes for all others |
| `PackedTags.Pack` | fs/yaffs2/yaffs_packedtags2.c:111-120 | sixteen bytes and their code |
| `PackedTags.Unpack` | fs/yaffs2/yaffs_packedtags2.c:160-197 | the correction in place, the tags and the verdict are the ones that the following lemmas are about |
| `PackedTags.SoundTags` | fs/yaffs2/yaffs_packedtags2.c:160-197 | sound tags come back without an error, and their bytes stay |
| `PackedTags.FlippedTags` | fs/yaffs2/yaffs_packedtags2.c:160-197 | with any one bit of the sixteen bytes wrong they come back as fixed, with the bytes put right, unless the sequence number then reads as that of an unused page |
| `PackedTags.HiddenPage` | fs/yaffs2/yaffs_packedtags2.c:165-166 | which happens exactly if the wrong bit was the only zero bit of the sequence number |
| `PackedTags.PageHidden` | fs/yaffs2/yaffs_packedtags2.c:165-166 | an instance: sequence number 0x7fffffff with bit 31 wrong |
| `PackedTags.WrongCodeTags` | fs/yaffs2/yaffs_packedtags2.c:160-197 | with any one bit of the code wrong they come back as fixed, and their bytes stay |
| `HangingObjects.ObjTree.FixHangingObjs` | fs/yaffs2/yaffs_guts.c:4223-4282 | for every parent graph, cycles included, afterwards every object is a parentless directory, sits directly under one, or reaches the root through directories; objects judged rooted are never moved |
| `HangingObjects.ObjTree.IsHanging` | fs/yaffs2/yaffs_guts.c:4243-4273 | an object hangs exactly if none of that holds within the depth limit |
| `HangingObjects.SafeStays` | fs/yaffs2/yaffs_guts.c:4223-4282 | moving a hanging object to lost+found never unroots an object judged rooted |
| `HangingObjects.DeepNestHangs` | fs/yaffs2/yaffs_guts.c:4261-4273 | a rooted object more than a hundred levels down is judged to hang |
| `HangingObjects.ObjTree.AddObjToDir` | fs/yaffs2/yaffs_guts.c:1276-1314 | the object is in the list of its new parent and of no other |
| `HangingObjects.ObjTree.RemoveObjFromDir` | fs/yaffs2/yaffs_guts.c:1257-1274 | the object is in no list |
| `NameVal.Find` | fs/yaffs2/yaffs_nameval.c:34-56 | finds the record of a name, if there is one that ends before the end of the buffer |
| `NameVal.Used` | fs/yaffs2/yaffs_nameval.c:58-72 | gives the number of bytes of all records but one that ends where the buffer ends |
| `NameVal.Del` | fs/yaffs2/yaffs_nameval.c:74-88 | removes exactly the record of the name; a hidden record is seen again then |
| `NameVal.Set` | fs/yaffs2/yaffs_nameval.c:90-128 | adds the record in place of the one of the same name, overwriting a hidden record unless that came back; tells how many bytes go outside of the buffer, and what is in it if the record does not fit; errors are given exactly for the stated reasons and change nothing |
| `NameVal.SetErrorIs` | fs/yaffs2/yaffs_nameval.c:100-113 | -17 exactly if the name must not have a value and has one, -61 exactly if it must and has none, -28 exactly if neither and the record does not fit beside those of the other names |
| `NameVal.Get` | fs/yaffs2/yaffs_nameval.c:130-166 | gives the value of the name, its size, or the right error |
| `NameVal.SetGets` | fs/yaffs2/yaffs_nameval.c:90-166 | whenever setting succeeds: the record is found again exactly if it ends before the end of the buffer; other names keep their values, but for a hidden record |
| `NameVal.OverrunIff` | fs/yaffs2/yaffs_nameval.c:107-126 | a record that is accepted ends outside of the buffer exactly if it replaces a shorter one that is seen while another record is hidden |
| `NameVal.SetBeyond` | fs/yaffs2/yaffs_nameval.c:90-166 | an instance in 16 bytes: records of 7 and 9 bytes, and the first one replaced by one of 8; it succeeds, and the name has no value any more |
| `NameVal.DelGets` | fs/yaffs2/yaffs_nameval.c:74-166 | after a name is deleted it has no value, and all other names have the values they had, that of a hidden record included |
| `NameVal.SetAndGone` | fs/yaffs2/yaffs_nameval.c:90-166 | an instance: a record that fills the buffer to the last byte is set with success and is not there |
| `NameVal.WithoutGet` | fs/yaffs2/yaffs_nameval.c:74-88 | without the record of a name, it has no value, and all other names have the values they had |
| `NameVal.EmptyBuffer` | fs/yaffs2/yaffs_nameval.c:206-209 | a buffer of zeros holds nothing |
| `PathWalk.Vfs.Walk` | fs/core/open.c:132-170 | a walk ends at a place the way to which has exactly the names that the components of the path lead to from where it starts, "." being skipped and ".." taking the last name away; or it fails, with one error where the components so far lead to no directory, with the other where the next one is neither cached nor on disk; a path that spells a trail of cached entries leads to where the trail leads, without asking any file system; there are no more steps than slashes |
| `PathWalk.Vfs.GetCwd` | fs/core/fs.c:238-282 | terminates and prints the whole trail up to 256 components, the last 256 of a longer one; with too small a buffer it stops behind the first component that fills it |
| `PathWalk.Vfs.ThereAndBack` | fs/core/fs.c:238-282 | walking the string printed for the working directory gives the same mount and entry exactly if it is at most 256 components deep |
| `PathWalk.ResolvedPlain` | fs/core/fs.c:236-282 | without dots the components of a path are the names along the way |
| `PathWalk.PrintedUnits` | fs/core/fs.c:268-279 | what is printed for the working directory has the names along the way to it as its components |
| `PathWalk.TooDeep` | fs/core/fs.c:236-282 | an instance: in the lowest of 257 directories of the same name, what is printed is the way to the one above it |
| `PathWalk.OneWay` | fs/core/fs.c:247-264 | there is one way only from the root to any entry, across mounts |
| `PathWalk.Vfs.ClimbUp` | fs/core/fs.c:247-264 | the entries from the working directory up to the root, across mounts |
| `PathWalk.Vfs.DoLookup` | fs/core/open.c:86-125 | leads to the entry of the name, cached before or found on disk, or to the root of what is mounted on it, and fails exactly if there is none; ".." leads to where the way without its last step leads, across mounts |
| `PathWalk.Vfs.DLookup` | fs/core/open.c:19-32 | finds the cached entry of a name |
| `PathWalk.Vfs.RealLookup` | fs/core/open.c:34-63 | a name is found exactly if the file system has it; a new entry says what that says, and keeps the cache sound; a failed lookup leaves it alone |
| `PathWalk.Vfs.LookupMnt` | fs/core/mount.c:172-182 | the first mount at an entry |
| `PathWalk.Vfs.FollowMount` | fs/core/open.c:65-76 | to the root of what is mounted at an entry |
| `PathWalk.Vfs.MountAtPath` | fs/core/mount.c:90-123 | mounting keeps cache and mount table sound; the new mount is on the entry to which the components of the path lead |
| `PathWalk.Vfs.Chdir` | fs/core/fs.c:222-234 | the working directory becomes the one to which the components of the path lead; it stays on an error |
| `PathWalk.Vfs.constructor` | fs/core/mount.c:125-159 | the root file system alone is sound |
| `ChunkAddress.AddrToChunkExact` | fs/yaffs2/yaffs_guts.c:47-71 | chunk * size + offset = position and offset < size, for chunk sizes of any kind, exactly as long as the shifted position fits into 31 bits, or 32 if the size is no power of two |
| `ChunkAddress.SplitExactIff` | fs/yaffs2/yaffs_guts.c:47-71 | with positions of 32 or 64 bits and for every chunk size: a position, cut to its width, is split right exactly if it is below the limit |
| `ChunkAddress.SplitLands` | fs/yaffs2/yaffs_guts.c:47-71 | every position, cut to its width, is split as one that is not beyond it; the offset is less than a chunk |
| `ChunkAddress.Limit32` | fs/yaffs2/yaffs_guts.c:47-71 | with positions of 32 bits all of them are split right, unless a chunk is a single byte |
| `ChunkAddress.BeyondTheLimit` | fs/yaffs2/yaffs_guts.c:47-71 | instances with chunks of 2048 bytes: position 2^32 with 32 bits, and 2^43 with 64, are taken for 0 |
| `ChunkAddress.PastTheLimit` | fs/yaffs2/yaffs_guts.c:47-71 | the last position that is split right and the one after it, for chunks of 2048 and of 1536 bytes |
| `ChunkAddress.CalcShiftsCeiling` | fs/yaffs2/yaffs_guts.c:79-97 | the ceiling of the binary logarithm |
| `ChunkAddress.CalcShifts` | fs/yaffs2/yaffs_guts.c:102-117 | the number is an odd number times that power of two |
| `ChunkAddress.GroupWindow` | fs/yaffs2/yaffs_guts.c:4678-4725 | for every chunk of a device of up to 2^30 chunks the width is even and from 16 to 30, and the group that its entry stands for contains it |
| `ChunkAddress.FindChunkInGroup` | fs/yaffs2/yaffs_guts.c:967-993 | finds the first chunk of the group in use with the right tags, if there is one |

## Left out

- NameVal.Set: of what is written outside of the buffer only the number of bytes is told; what setting and deleting do after a record did not fit is not looked at, what finding and getting do is.
- FileCache.FileSys.WrFile: of a request that goes beyond the limit of positions only that no other file changes, and how each part of it lands (`FileCache.FileSys.WrFirstPart`); it stops where filling a gap has failed and the cut that undoes this would go wrong.
- FileCache.FileSys.ResizeFile: of a cut above the limit of 64-bit positions only that no other file changes.
- LiveFile.File.DoFileWr: of a request whose end is no 32-bit size only that the device stays in order. Wider positions are not modelled in LiveFile.
- ChunkAddress.SplitLands: chunk number 2^32 - 1, which the source increments to 0, the number of headers, counts as one beyond the largest; with 32-bit positions it does not occur.
- CheckptObjs.RecBack: the size in an object record has 64 bits; where sizes have 32 the record is a word shorter.
- Space.SoftAtMostUsed: the counters are unbounded; `Space.CountersFitIff` says for which devices that makes no difference.
- BackwardScan.ScanBackwards: in which order blocks are scanned whose sequence numbers are 2^31 or more apart is left open; `BackwardScan.CompareAgreesIff` says when the comparison is wrong.
- BackwardScan.ScanHeaderStep: names, directories, links and shadowing are not rebuilt; summaries are not read.
- CheckptStream.Stream.Erase: erasing a checkpoint block always succeeds.
- CheckptStream.Stream.Rd: may not be called again after a short read, as its callers do not either.
- CheckptStream.Stream.Wr: what the source writes past the end of its buffer after a failed flush is only said to be lost.
- CheckptSave.Save: begins where an old checkpoint has been invalidated; after a failed write it stops, whereas the source tries the other objects of the same hash bucket, in vain.
- CheckptObjs.RdObjs: an id that occurs twice gets two trees; the list of hard links to be fixed up is not kept.
- PathWalk.Vfs.Walk: `..` may not be the first component, because the branch for it reads an output that has not been set yet then.
- PathWalk.Vfs.GetCwd: what is printed when the buffer fills up is told, but not what copying a whole name into a smaller buffer overwrites.
- PathWalk.Vfs.MountAtPath: of the mounted file system only the root is known.
- TnodeTree.FileVar.AddFindTnode0: the tree is a value in a field; the way down, a loop over pointers in the source, is a recursive function, and a changed leaf is put back.
- TnodeTree.FileVar.PutChunkInFile: without the duplicate handling of a forward scan.
- Device.Dev.WriteNewChunk: without error strikes and refreshing; whether a page reads as erased, and whether a write succeeds, is arbitrary. A page whose write failed is taken not to be believed by a scan.
- Device.Dev.BlockBecameDirty: the pages of a block that can neither be erased nor marked bad are gone from the log all the same, though a scan would still read them.
- Restart.PowerOn: the flash chip reports of every block in service its sequence number, and the newest one has been written to; blocks of which nothing is in use are erased after the scan instead of in between, which makes no difference to it, as no block is read twice; the tnode trees are maps here. Requires that the chunks of all objects can be found where they are, without which what a scan finds is wrong (`BackwardScan.ScansRightIff`), and that the sequence numbers are near to each other.
- Device.Dev.UpdateOh: of a header only size, shrink flag and bytes; shadowing, renaming and unlinking are not modelled, nor are the headers by which the source moves an object to the deleted directory.
- QuickSort.Pass: how often elements are compared, and from which length on a segment is sorted by insertion, shows in no contract, as the result is the same.
- Device.Dev.GcBlock: which block is collected, and when, is up to the caller.
- LiveFile.File.WrFile: without the cache, which is in FileCache. In general its condition on the size names whether the gap was filled, which depends on the space found; the one for a device with room does not.
- LiveFile.AnyRun: power is lost after a flush; for other moments `LiveFile.File.Remount` tells what is found, without the bytes if the size is not known. It takes the pages on flash for what was programmed; pages that a power cut leaves half written are not modelled. With collection going on, whether pages will be refused is not told from the state before the run: blocks are collected arbitrarily, and copies take pages, too.
- FileCache.FileSys.FlushFileCache: a write into the reserve, as made when the cache is flushed, succeeds.
- FileCache.FileSys.WrDataObj: flash is a map from chunks to bytes here; its pages are in Device and LiveFile, whose files are read and written without the cache.
- HangingObjects.ObjTree.AddObjToDir: without the counter of unlinked files.
- NAND drivers, bad block tables, summaries, in-band tags and locking.
- YAFFS1 and its tags, hard links, symbolic links, renaming, attributes other than the name/value buffer, listing names.
- Block refreshing, background collection and the thresholds of the collector, which are policy.
- Checkpoint validity across later writes, and the estimate of the blocks a checkpoint needs.
- ext2, ext4, FAT, the shell, board support, and everything outside of `fs/yaffs2` and `fs/core`.
