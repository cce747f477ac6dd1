# tboot verified

A Dafny model of the cores of tboot, a small boot and flashing environment, with proofs of what they promise.
Each module follows one source file or one layer of it. Code that works in place is a class or a method over
arrays, proved equal to a function; the results about whole runs are lemmas about these functions.

- **Inode renumbering** (`Fixup*`). The tool of `ext4_utils/ext4fixup.c` gives every block group more inodes and
  rewrites every directory entry. A word in the boot sector says how far it has got. Every device write may be the
  last one before a stop; a schedule of stops is a sequence of write budgets.
- **Sparse images** (`Sparse*`). The sorted, merging run list of `libsparse`, its meaning as a map from blocks to
  contents, the chunk writer and reader byte for byte, and the division into files of bounded size.
- **Calendar** (`Tz*`). `timesub` and `time2sub` of `libcutils/tztime.c` for a fixed offset.
- **ext4 allocator** (`FsGeometry`, `BlockBitmap`, `AllocModel`, `Allocator`), **extents** (`Extent*`) and **directories** (`Dir*`)
  of `ext4_utils`.
- **Hash map** (`Hash*`), **streaming flash** (`Stream*`), **SHA-1** (`Sha1*`), **partition tables** (`Mbr*`) and
  **modified UTF-8** (`Jstring*`).

`Common` and `Bytes` hold arithmetic and little-endian fields.

## Where the code does not keep a promise

For each of these there is a concrete case and the exact condition under which the promise holds.

- A stop between the primary superblock and the primary descriptors loses the growth of the free inode counts
  (`FixupTheorems.FreeCountsGrowOnce`, `FixupExample.CountsMissedExample`).
- The length of merged runs wraps at 2^32 and then blocks disappear (`SparseQueue.QueueUpdatesImage`,
  `SparseQueue.WrapExample`). For the same reason a stretch of equal fills of 4 GB or more does not survive a write
  and a read (`SparseRoundTrip.WriteThenRead`, `SparseRoundTrip.FourGigabyteExample`).
- Resparse may make a last file that is empty (`SparseResparse.LastFileEmptyIff`, `SparseResparse.EmptyPieceExample`).
  With less room than a block it ends only if every chunk fits (`SparseResparse.DivisionEndsIff`,
  `SparseResparse.TooSmallNeverShrinks`). With room for fewer than eight blocks files may end with runs of no length
  (`SparseResparse.EmptyRunExample`), which change neither the number nor the contents of the files. A max_len below the overhead or just above it does not bound the files
  (`SparseResparse.PiecesFit`, `SparseResparse.NoRoomExample`, `SparseResparse.SpillExample`). Runs of 2^31 bytes or
  more are counted wrongly (`SparseIo.RawCountIff`, `SparseIo.RawCountExample`).
- The differences of years in `tmcomp` and in the weekday formula overflow near the lowest year: the lowest seventy
  years are not found by `time2sub`, and their weekdays are four days off (`TzCalendar.TmCompOrders`,
  `TzMktime.RoundTrip`, `TzTime.WeekdayOfDay`, `TzMktime.LowestYearIsLost`).
- An unused group without a free block keeps the block allocator in its loop for ever, and a last group of exactly the
  size of its header is such a group (`AllocModel.LoopEndsIff`, `Allocator.ExactHeaderStalls`). A first region of a
  single block loses the last block of the file (`ExtentTheorems.ExtentsRoundTrip`, `ExtentExample.ThinGroupExample`).
  `reserve_oob_blocks` takes the wrong regions when the cut falls between two of them (`ExtentModel.ReserveTakesFirst`,
  `ExtentModel.ReserveEdgeExample`).
- With very many long names the closing record of a directory outgrows its 16-bit length (`DirLayout.DirectoryIsRight`,
  `DirLayout.TooManyLongNames`).
- More may have been written than `finished` says: exactly while the producer has unlocked a chunk without counting it
  and the buffers together hold less than that chunk (`StreamRuns.BytesInOrder`, `StreamRuns.WrittenBeforeCounted`).
  The last chunk may never be written (`StreamRuns.DeliveredIff`, `StreamRuns.LossyIsReachable`).
- A SHA-1 update of 2^29 bytes or more may lose the high bits of the length (`Sha1.CountsExactly`,
  `Sha1.LongPieceExample`). One whose end, counted from the start of the buffer, reaches 2^32 is copied past the buffer (`Sha1.PieceFitsIff`,
  `Sha1.LongestPieceExample`).
- The space check of `config_mbr` accepts partitions that end behind the disk (`MbrTool.OverflowAccepted`,
  `MbrTool.WronglyAcceptedIff`, `MbrTool.CheckIsExact`). A logical partition whose boot record is in sector 2^32 - 1 is
  noted at sector 0 (`MbrTool.StartWrapsIff`, `MbrTool.StartWrapsExample`).

## Model

| member | source | states |
|---|---|---|
| `FixupPhases.NewInumKeepsPlace` | ext4_utils/ext4fixup.c:76-84 | a renumbered inode has the same group and table index under the new group size as before |
| `FixupPhases.NewInumInjective` | ext4_utils/ext4fixup.c:76-84 | no two inodes of the filesystem get the same new number |
| `FixupPhases.OldInumsFit` | ext4_utils/ext4fixup.c:76-84 | the old numbers lie within the range of the new ones |
| `FixupPhases.Forms` | ext4_utils/ext4fixup.c:750-757 | the two forms an entry can have in a pass differ, are not 0, name the same inode, and lead one to the other |
| `FixupPhases.WriteOneBlock` | ext4_utils/ext4fixup.c:768-774 | writing back one block of a processed directory buffer keeps the invariant of the pass |
| `FixupPhases.DescendsAtChildren` | ext4_utils/ext4fixup.c:702-741 | the walk descends into a subdirectory unless its entry is already new, and then everything below is finished |
| `FixupPhases.WalkKeepsPhase` | ext4_utils/ext4fixup.c:677-766 | the loop over the entries keeps the invariant wherever the machine stops, at any nesting of subdirectories |
| `FixupPhases.RecurseDirKeepsPhase` | ext4_utils/ext4fixup.c:621-779 | a pass over a directory tree keeps the invariant at every stop, never fails on a sound tree, and if it is not stopped leaves the directory it was called for in its final form |
| `FixupCrash.SanityPass` | ext4_utils/ext4fixup.c:861-870 | the sanity pass writes nothing and succeeds exactly on the trees that the later passes can handle |
| `FixupCrash.SanityPassOnRoot` | ext4_utils/ext4fixup.c:861-870 | the same for the whole filesystem |
| `FixupCrash.UnmarkedMeansSubtreeDone` | ext4_utils/ext4fixup.c:702-757 | below an entry that is unmarked during updating, every entry along every chain of subdirectories carries its new number |
| `FixupCrash.RootPassFinishes` | ext4_utils/ext4fixup.c:872-890 | a pass over the root that is not stopped finishes every directory |
| `FixupRuns.SetStateBody` | ext4_utils/ext4fixup.c:153-197 | writing the state word changes nothing but that word and the mount bit |
| `FixupRuns.StateRoundTrip` | ext4_utils/ext4fixup.c:122-197 | the state read from the boot sector is the state that was written |
| `FixupRuns.BeforeSuperOnWay` | ext4_utils/ext4fixup.c:861-890 | from any disk that earlier runs may leave, the phases before the superblock phase end on the way or ready for it |
| `FixupSuper.BitmapPassFinishes` | ext4_utils/ext4fixup.c:339-368 | the bitmap pass clears the new bits of every group, also when an earlier run has cleared some of them |
| `FixupSuper.FirstSuperPass` | ext4_utils/ext4fixup.c:417-446 | the write loop leaves the old counts next to the new primary superblock exactly when it has one write left |
| `FixupSuper.FirstUpdate` | ext4_utils/ext4fixup.c:371-450 | the same for the whole superblock step of the first run to reach it, the bitmaps included |
| `FixupSuper.LaterSuperPass` | ext4_utils/ext4fixup.c:371-450 | a later pass over the copies finishes them without growing the counts again |
| `FixupSuper.OneRun` | ext4_utils/ext4fixup.c:786-898 | one run from any disk an earlier run may leave, stopped at any write: it fails only if the sanity pass rejects the tree and then writes nothing; it keeps the invariant; if not stopped it finishes |
| `FixupTheorems.UnsetMeansAllOrNothing` | ext4_utils/ext4fixup.c:861-893 | crash safety: for every tree and every schedule of stops and restarts, a state word that reads unset means that nothing has changed or that every entry has been renumbered exactly once |
| `FixupTheorems.StopDuringUpdate` | ext4_utils/ext4fixup.c:621-779 | at every stop of the update phase each live entry is marked with its old number or carries its new one, and an unmarked subdirectory entry means that subdirectory is finished, also when the group size does not change |
| `FixupTheorems.UnstoppedRunCompletes` | ext4_utils/ext4fixup.c:786-898 | after any earlier stops, a run that is not stopped completes the work and leaves the state word and the mount bit clear; it fails if and only if the sanity pass does, and then the disk is as at the start |
| `FixupTheorems.FreeCountsGrowOnce` | ext4_utils/ext4fixup.c:371-450 | when the work is done the free count of every group is the old one and the growth, modulo 2^16, if and only if the growth does not show in the field or no run of the schedule had exactly one write left for the superblocks while the primary one had the old group size |
| `FixupTheorems.FinishedCopies` | ext4_utils/ext4fixup.c:371-450 | on every finished disk each copy of the superblock says how many inodes there are and that the new ones are free, each copy of the descriptors is the same, the bits of the new inodes are clear, and nothing else changed |
| `FixupTheorems.FirstRunCounts` | ext4_utils/ext4fixup.c:371-450 | such a run stops with the primary superblock grown and the descriptors as they were, and no other run misses the counts |
| `FixupTheorems.CountsMoveIff` | ext4_utils/ext4fixup.c:389-395 | growing changes the stored counts exactly when there are some and the growth is not a multiple of 2^16 |
| `FixupExample.CountsMissedExample` | ext4_utils/ext4fixup.c:371-450 | a disk with one directory and two runs, the first stopped after nine writes, that finish with the old counts |
| `FixupExample.EveryWrite` | ext4_utils/ext4fixup.c:786-898 | the disk of that example after every one of the twelve writes, state words and marks included |
| `FixupBudget.FixupCost` | ext4_utils/ext4fixup.c:786-898 | on any disk some number of writes is enough for a run not to be stopped, and more than that are left over |
| `FixupBudget.EnoughWritesComplete` | ext4_utils/ext4fixup.c:786-898 | on every filesystem that the sanity pass accepts, after any stopped runs, some number of writes completes the work |
| `FixupTheorems.PathsKeepTheirMeaning` | ext4_utils/ext4fixup.c:258-268 | every path resolves under the new numbers and group size to the same inode position as under the old ones |
| `FixupTheorems.IdleRunChangesNothing` | ext4_utils/ext4fixup.c:829-835 | a further completed run over a finished filesystem changes nothing |
| `FixupTheorems.GoodRuns` | ext4_utils/ext4fixup.c:786-898 | whatever schedule of stopped runs, also beyond completion, the disk stays within the invariant |
| `FixupTool.Device.Put` | ext4_utils/ext4fixup.c:103-120 | one device write, or the stop that comes instead of it |
| `FixupTool.Device.PutState` | ext4_utils/ext4fixup.c:153-197 | the state word and the mount bit, as the function model says |
| `FixupTool.Device.PutDir` | ext4_utils/ext4fixup.c:768-774 | the write-back loop of a directory |
| `FixupTool.Device.Recurse` | ext4_utils/ext4fixup.c:621-779 | the recursive walk on the device equals the function model |
| `FixupTool.Device.CheckInodeBitmaps` | ext4_utils/ext4fixup.c:339-368 | the bitmap loop equals the function model |
| `FixupTool.Device.UpdateSuperblocksAndDescs` | ext4_utils/ext4fixup.c:371-450 | the superblock and descriptor loop equals the function model |
| `FixupTool.Device.Ext4Fixup` | ext4_utils/ext4fixup.c:786-898 | the phase driver equals the function that the crash-safety results are about |
| `FixupTool.SanityWritesNothing` | ext4_utils/ext4fixup.c:621-779 | the sanity pass leaves the device alone, whatever is on it |
| `SparseList.MergeKeepsBlocks` | libsparse/backed_block.c:191-245 | merging two neighbours changes no block when the summed length fits 32 bits, in spite of the rounded-down adjacency test |
| `SparseList.WrapLosesBlock` | libsparse/backed_block.c:237-240 | a summed length that wraps loses at least the last block |
| `SparseList.MergeableIsWhole` | libsparse/backed_block.c:191-245 | runs that pass the merge test touch exactly: the first one fills its last block |
| `SparseList.MergeAtSorted` | libsparse/backed_block.c:191-245 | merging keeps the list sorted and disjoint |
| `SparseList.MergeAtImage` | libsparse/backed_block.c:191-245 | the image after a merge, block by block |
| `SparseList.ImageCovered` | libsparse/backed_block.c:26-52 | a block has contents exactly when some run covers it |
| `SparseQueue.PositionSplits` | libsparse/backed_block.c:247-285 | the search finds the only position that keeps the list sorted |
| `SparseQueue.QueueKeepsOrder` | libsparse/backed_block.c:247-285 | queueing a run that shares no block with the list keeps the list sorted and disjoint |
| `SparseQueue.QueueUpdatesImage` | libsparse/backed_block.c:191-285 | queueing changes the image on the blocks of the run and nowhere else, if and only if no merged length overflows |
| `SparseQueue.LostBlock` | libsparse/backed_block.c:191-285 | otherwise a block of the list or of the run is lost |
| `SparseQueue.WrapExample` | libsparse/backed_block.c:237-240 | two fills of 2^31 bytes merge to length 0 |
| `SparseQueue.SearchMayStartAt` | libsparse/backed_block.c:262-272 | starting the search behind any run that lies before the new one finds the same position |
| `SparseQueue.CutKeepsBlocks` | libsparse/backed_block.c:361-400 | cutting a run at a block boundary changes no block |
| `SparseQueue.CutNothing` | libsparse/backed_block.c:361-400 | a split after no byte leaves the run and one of no length before it |
| `SparseQueue.SplitKeepsImage` | libsparse/backed_block.c:361-400 | splitting anywhere, also after no byte, keeps the list in order and the image unchanged |
| `SparseQueue.MoveAppends` | libsparse/backed_block.c:144-188 | runs that lie behind a list are appended to it |
| `SparseQueue.BackedBlockList.Queue` | libsparse/backed_block.c:247-285 | the list after queueing, the same whether or not the cached run is used |
| `SparseQueue.BackedBlockList.FindSlot` | libsparse/backed_block.c:262-272 | the search loop returns the position of the specification |
| `SparseQueue.BackedBlockList.Split` | libsparse/backed_block.c:361-400 | the list after a split |
| `SparseQueue.BackedBlockList.MoveFirst` | libsparse/backed_block.c:144-188 | both lists after moving a prefix |
| `SparseResparse.RoundTakes` | libsparse/sparse.c:223-275 | a round takes a prefix of the list after cutting at most one run, and why it stops where it does |
| `SparseResparse.RoundShrinks` | libsparse/sparse.c:277-312 | a round that asks for another file takes something and leaves strictly fewer bytes, whenever there is room for a block or every chunk fits as it is |
| `SparseResparse.TooSmallNeverShrinks` | libsparse/sparse.c:253-266 | with less room than a block, a round leaves every run from the first one whose chunk does not fit |
| `SparseResparse.DivisionEndsIff` | libsparse/sparse.c:289-304 | the loop of resparse ends if and only if there is room for a block or every chunk fits as it is |
| `SparseResparse.EmptyRunExample` | libsparse/sparse.c:253-266 | with room for two blocks a file ends with a run of no length, and with two of them when the split image is divided again |
| `SparseResparse.DivideConserves` | libsparse/sparse.c:277-312 | the files in order form an ordered, disjoint list with the image of the input, for every room with which the division ends |
| `SparseResparse.DivideSized` | libsparse/sparse.c:253-266 | with room for eight blocks no file holds a run of no length |
| `SparseResparse.DivideTwice` | libsparse/sparse.c:248-266 | dividing the image that the counting pass has already split gives the same number of files and the same runs but for some of no length; with room for eight blocks exactly the same files |
| `SparseResparse.EmptyPieces` | libsparse/sparse.c:277-312 | only the last file can be empty |
| `SparseResparse.LastFileEmptyIff` | libsparse/sparse.c:253-266 | of several files the last one is empty if and only if some round takes the last run whole although its header no longer fits |
| `SparseResparse.EmptyPieceExample` | libsparse/sparse.c:253-266 | one run that makes two files, the second one empty |
| `SparseResparse.PiecesFit` | libsparse/sparse.c:233-266 | every file, even with a CRC chunk, is at most max_len plus one chunk header for each gap inside it, and up to three bytes more only where max_len leaves less than 24 bytes |
| `SparseResparse.PiecesAreFull` | libsparse/sparse.c:253-262 | with room for eight blocks every file but the last uses at least seven eighths of the room |
| `SparseResparse.SpillExample` | libsparse/sparse.c:253-266 | a file that is one byte longer |
| `SparseResparse.RoomOfIff` | libsparse/sparse.c:233-240 | max_len less the overhead wraps exactly if it is smaller than the overhead |
| `SparseResparse.NoRoomExample` | libsparse/sparse.c:233-240 | with max_len 79 everything goes into one file |
| `SparseResparse.OverheadIsTight` | libsparse/sparse.c:233-240 | a file that reaches the limit exactly |
| `SparseDriver.CountFitting` | libsparse/sparse.c:248-266 | the loop stops at the run the specification stops at |
| `SparseDriver.MoveChunksUpToLen` | libsparse/sparse.c:223-275 | source and destination lists after one round |
| `SparseDriver.NextFile` | libsparse/sparse.c:291-297 | one new file takes what fits |
| `SparseDriver.PutBack` | libsparse/sparse.c:298-302 | a counted file goes back behind what has been kept, in order |
| `SparseDriver.Resparse` | libsparse/sparse.c:277-312 | the files, their number, and the list that a counting call leaves behind |
| `SparseDriver.CountThenDivide` | libsparse/simg2simg.c:73-85 | the second call makes exactly the number of files the first one announced, with the same runs but for some of no length |
| `SparseFormat.ChunkStands` | libsparse/sparse.c:125-149 | gap and chunk of every run stand in the stream where the runs before it end |
| `SparseFormat.HeaderFields` | libsparse/output_file.c:348-449 | the fields of a chunk header read back as written |
| `SparseFormat.FileHeaderFields` | libsparse/output_file.c:583-604 | the fields of the file header read back as written |
| `SparseRoundTrip.ReaderAccepts` | libsparse/sparse_read.c:277-357 | the reader accepts every stream of the writer: the header counts all chunks and their blocks add up to the image |
| `SparseRoundTrip.ReadRunCovers` | libsparse/sparse_read.c:98-202 | a run read back covers the blocks of the run written |
| `SparseRoundTrip.ReadRunContents` | libsparse/sparse_read.c:98-175 | a run read back holds what was written, partial data padded with zeros |
| `SparseRoundTrip.WriteThenRead` | libsparse/sparse_read.c:423-477 | write then read preserves the image if and only if no stretch of equal fills is 4 GB or longer |
| `SparseRoundTrip.FourGigabyteExample` | libsparse/sparse_read.c:136-175 | two neighbouring fills of 2^31 bytes that are not read back |
| `SparseExample.FileBegins` | libsparse/output_file.c:584-605 | the first twelve bytes of every sparse file |
| `SparseExample.ChunkBegins` | libsparse/sparse_format.h:37-40 | the first four bytes of every chunk |
| `SparseExample.StreamExample` | libsparse/output_file.c:348-449 | the 72 bytes of a file with a raw chunk, a fill and a gap |
| `SparseExample.ImportExample` | libsparse/sparse_read.c:204-275 | the runs that are read from these bytes |
| `SparseExample.CrcExample` | libsparse/sparse_read.c:204-275 | a CRC chunk, by its bytes, follows a null pointer |
| `SparseExample.ImageExample` | libsparse/backed_block.c:26-52 | the bytes that a data run and a fill stand for |
| `SparseExample.PaddedExample` | libsparse/output_file.c:410-449 | three bytes of a file and the zero behind them |
| `SparseExample.MergeExample` | libsparse/backed_block.c:191-245 | which neighbours are merged, kind by kind |
| `SparseExample.QueueExample` | libsparse/backed_block.c:247-285 | a run is merged with the one before it, but not with the head behind it |
| `SparseRoundTrip.LostForGood` | libsparse/sparse_read.c:136-175 | a block lost by an overflowing fill never comes back |
| `SparseIo.CountTheChunks` | libsparse/sparse.c:80-101 | the number of chunks of the specification |
| `SparseIo.OutputFile.constructor` | libsparse/output_file.c:552-613 | the stream starts with the file header |
| `SparseIo.OutputFile.WriteSkip` | libsparse/output_file.c:348-372 | a skip chunk, or an error for a length that is not whole blocks |
| `SparseIo.OutputFile.WriteBlock` | libsparse/output_file.c:374-449 | the chunk of a run, with the rounded length wrapped to an int where it moves the position |
| `SparseIo.WriteRun` | libsparse/sparse.c:125-149 | the gap before a run and the run |
| `SparseIo.WriteRuns` | libsparse/sparse.c:131-140 | all runs with the gaps before them |
| `SparseIo.WriteTail` | libsparse/sparse.c:142-146 | the gap up to the end of the image |
| `SparseIo.WriteSparse` | libsparse/sparse.c:125-169 | the stream that is written has as many chunks as its header promises; the position, which nothing reads, ends 2^32 short of the end of the image for every run of 2^31 bytes or more, and at the end when there is none |
| `SparseIo.ImportSparse` | libsparse/sparse_read.c:277-357 | the reading loop equals the specification, errors included |
| `SparseIo.StreamLength` | libsparse/output_file.c:348-475 | the stream is exactly as long as resparse reckons |
| `SparseIo.RawCountIff` | libsparse/sparse.c:192-197 | the counter of resparse counts a raw chunk rightly if and only if the run is shorter than 2^31 bytes |
| `SparseIo.RawCountExample` | libsparse/sparse.c:192-197 | a run of 2^31 bytes counts as less than nothing |
| `TzCalendar.IncrementOverflowExact` | libcutils/tztime.c:1564-1579 | the comparison detects an int overflow exactly |
| `TzCalendar.LeapsThruRoundsDown` | libcutils/tztime.c:1376-1382 | leap years are counted with floors on both sides of year 0 |
| `TzCalendar.YearStep` | libcutils/tztime.c:1376-1382 | each year adds its own length to the day count |
| `TzCalendar.CivilNamesItsSecond` | libcutils/tztime.c:1384-1516 | the civil time of a second names that second |
| `TzCalendar.CivilIsUnique` | libcutils/tztime.c:1384-1516 | valid fields that name the same second are the same fields |
| `TzCalendar.MonthStartIs` | libcutils/tztime.c:619-622 | the starts of the months in one formula, for both kinds of year |
| `TzCalendar.DayNumberIs` | libcutils/tztime.c:1384-1516 | the day number of every date, of any year, is that of the Gregorian calendar counted from March, without tables |
| `TzCalendar.TmCompOrders` | libcutils/tztime.c:1628-1642 | tmcomp orders valid fields as the seconds they name exactly when the difference of the years fits an int, and the other way round when it does not |
| `TzTime.FindYear` | libcutils/tztime.c:1429-1452 | the year-jumping loop ends and finds the year, or reports exactly the years that do not fit or whose predecessor does not |
| `TzTime.CarryDays` | libcutils/tztime.c:1460-1472 | day and second after the offset is added |
| `TzTime.CarryYears` | libcutils/tztime.c:1473-1482 | the loops that bring the day into its year |
| `TzTime.WeekdayOfDay` | libcutils/tztime.c:1487-1498 | the weekday formula gives the weekday counted from the epoch if and only if the year less 1970 fits an int, and is four days off otherwise |
| `TzTime.FindMonth` | libcutils/tztime.c:1507-1510 | the month that holds the day |
| `TzTime.Timesub` | libcutils/tztime.c:1384-1516 | for every second and offset: the unique civil date and time with the weekday of the formula, or nothing exactly when the year or its predecessor does not fit an int |
| `TzMktime.NormalizeOverflowExact` | libcutils/tztime.c:1598-1626 | the carry is the floor of the quotient, and exactly the sums that do not fit are reported |
| `TzMktime.NormalizeDay` | libcutils/tztime.c:1684-1706 | the day loops end in a valid day that means the same day |
| `TzMktime.Normalize` | libcutils/tztime.c:1644-1730 | normalising keeps the second that the fields denote |
| `TzMktime.DirectionIsRight` | libcutils/tztime.c:1731-1780 | each probe of the search moves towards the second looked for if and only if the difference of the years fits an int |
| `TzMktime.YearsAreClose` | libcutils/tztime.c:1731-1780 | once the first probe is within reach, so is every later one |
| `TzMktime.ProbeKeepsTrack` | libcutils/tztime.c:1731-1780 | every step of the search keeps the second looked for between its bounds, or keeps missing it |
| `TzMktime.Search` | libcutils/tztime.c:1731-1780 | the binary search ends and finds the second if there is one and its year differs from that of the first probe by an int; otherwise it finds nothing |
| `TzMktime.Time2Sub` | libcutils/tztime.c:1644-1827 | the second denoted by the fields, un-normalised ones included, or failure exactly when there is none or its year is out of reach |
| `TzMktime.Time2` | libcutils/tztime.c:1829-1847 | first with the seconds as they are, then normalised; the fields of a second are found if and only if their year is within reach |
| `TzMktime.RoundTrip` | libcutils/tztime.c:1644-1827 | time2sub returns t from the fields of t if and only if their year is within reach, for every t that has fields |
| `TzMktime.ReachableAtZero` | libcutils/tztime.c:1731-1780 | without an offset all years but the lowest seventy are within reach |
| `TzMktime.LowestYearIsLost` | libcutils/tztime.c:1384-1827 | the first second of the lowest year has fields, is not found again, and has the wrong weekday |
| `TzMktime.RoundTripBack` | libcutils/tztime.c:1644-1827 | the fields of the returned second denote the same second as the fields given |
| `TzMktime.LocalTimeInjective` | libcutils/tztime.c:1384-1516 | two seconds with the same fields are the same second |
| `TzExample.EndOf1969` | libcutils/tztime.c:1384-1516 | the fields of second -1 |
| `TzExample.FirstOfMarch1900` | libcutils/tztime.c:1384-1516 | the fields of a day in a century that is no leap year |
| `TzExample.LastOfMarch1970` | libcutils/tztime.c:1384-1516 | the fields of the last day of a month |
| `TzExample.LeapDay2000` | libcutils/tztime.c:1384-1516 | the fields of a leap day |
| `TzExample.EndOf32Bits` | libcutils/tztime.c:1384-1516 | the fields of second 2^31 - 1 |
| `BlockBitmap.SetBit` | ext4_utils/allocate.c:180-187 | one bit is set, or found set |
| `BlockBitmap.BitIsShift` | ext4_utils/allocate.c:180-187 | bits are counted from the least significant one |
| `BlockBitmap.Set8Bits` | ext4_utils/allocate.c:189-194 | a whole byte is set, or found in use |
| `BlockBitmap.MarkBits` | ext4_utils/allocate.c:198-232 | single-bit loops, up to the count or a byte boundary |
| `BlockBitmap.MarkBytes` | ext4_utils/allocate.c:198-232 | the whole-byte loop |
| `BlockBitmap.MarkRange` | ext4_utils/allocate.c:198-232 | the three loops together mark exactly the range, and fail exactly when a bit of it is set |
| `BlockBitmap.ClearRange` | ext4_utils/allocate.c:234-242 | exactly the range is cleared |
| `AllocModel.Allocate` | ext4_utils/allocate.c:449-457 | do_allocate keeps every group sound |
| `AllocModel.PartialKeepsSound` | ext4_utils/allocate.c:385-421 | where the loop ends, a partial allocation takes at least one block and no more than asked for, and the loop still ends |
| `AllocModel.PartialGivesNothingIff` | ext4_utils/allocate.c:385-421 | a partial allocation gives nothing if and only if the first unused group has no free block |
| `AllocModel.LoopEndsIff` | ext4_utils/allocate.c:423-447 | the loop over partial allocations ends if and only if no unused group without a free block comes before the blocks asked for |
| `AllocModel.StuckNeverEnds` | ext4_utils/allocate.c:423-447 | otherwise it has not ended after any number of turns |
| `AllocModel.AllocateEndsIff` | ext4_utils/allocate.c:449-457 | do_allocate ends if and only if some group has room for everything or that loop ends |
| `AllocModel.MultipleIsLoop` | ext4_utils/allocate.c:423-447 | the groups and the outcome of the function are those of the loop turn by turn |
| `Allocator.ExactHeaderStalls` | ext4_utils/ext4_utils.c:108-116 | on a device of 33046 blocks with the default parameters the last group is exactly its header, and asking for more than 32490 blocks never ends |
| `Allocator.ExactHeaders` | ext4_utils/make_ext4fs.c:255-290 | that device has two groups with headers of 278 blocks |
| `AllocModel.MultipleKeepsSafe` | ext4_utils/allocate.c:423-447 | several regions: apart from everything live and from each other, and as long together as asked for |
| `AllocModel.AllocateKeepsSafe` | ext4_utils/allocate.c:332-457 | the same for do_allocate, and a failure leaves everything live apart |
| `AllocModel.ReturningKeepsSafe` | ext4_utils/allocate.c:244-271 | giving back the end of a region that is on top of its group keeps everything live apart |
| `AllocModel.RunIsSafe` | ext4_utils/allocate.c:244-457 | over whole runs of allocations and reductions: live blocks are pairwise disjoint, inside the device and never headers |
| `AllocModel.FirstRegionOnTop` | ext4_utils/allocate.c:423-480 | right after an allocation its first region is what its group gave out last |
| `AllocModel.MultipleSparesFullGroups` | ext4_utils/allocate.c:423-447 | a used-up group is not touched again |
| `FsGeometry.IsPowerOf` | ext4_utils/ext4_utils.c:52-62 | the loop decides whether a number is a power of the base |
| `FsGeometry.HasSuperBlock` | ext4_utils/ext4_utils.c:67-81 | groups 0, 1 and powers of 3, 5 and 7, or every group |
| `FsGeometry.GroupHeader` | ext4_utils/allocate.c:273-280 | the header of a group: bitmaps, inode table, and the copies of superblock, descriptors and reserve where there are any |
| `FsGeometry.CreateFsAuxInfo` | ext4_utils/ext4_utils.c:90-116 | how many groups and blocks are used: a last group shorter than its header is dropped |
| `FsGeometry.GeometryFits` | ext4_utils/ext4_utils.c:90-116 | every group starts on the device and has its header there, and all but the last are whole |
| `Allocator.ReserveBlocks` | ext4_utils/allocate.c:198-232 | counts and bitmap after a reservation, and exactly when it is refused |
| `Allocator.InitGroup` | ext4_utils/allocate.c:273-307 | in a new group the clear bits are exactly the run of free blocks |
| `Allocator.BlockAllocator.constructor` | ext4_utils/allocate.c:309-319 | all groups after initialisation, with the headers that the parameters of the filesystem give them |
| `Allocator.BlockAllocator.FromGroup` | ext4_utils/allocate.c:332-347 | region, counts and bitmap after an allocation from one group |
| `Allocator.BlockAllocator.AllocateContiguous` | ext4_utils/allocate.c:349-369 | the first group with room |
| `Allocator.BlockAllocator.AllocatePartial` | ext4_utils/allocate.c:385-421 | an unused group whole, or the rest wherever it fits |
| `Allocator.BlockAllocator.AllocateMultiple` | ext4_utils/allocate.c:423-447 | the loop, where it ends, equals the specification, partial work of a failure included |
| `Allocator.BlockAllocator.DoAllocate` | ext4_utils/allocate.c:449-457 | the allocator with its bitmaps equals the specification wherever it ends, and the bitmaps stay in step with the counts |
| `Allocator.BlockAllocator.GiveBack` | ext4_utils/allocate.c:234-242 | bitmap and counts after blocks go back |
| `ExtentModel.BlocksDiffer` | ext4_utils/allocate.c:505-517 | regions that are apart hold no block twice |
| `ExtentModel.ReserveTakesFirst` | ext4_utils/allocate.c:564-629 | reserve_oob_blocks sets aside the first n blocks, in order, if and only if the cut falls inside a region or n is 0 |
| `ExtentModel.ReserveEdgeExample` | ext4_utils/allocate.c:564-629 | two regions of two blocks: reserving two blocks takes the second region |
| `ExtentModel.WalkRestoresBlocks` | ext4_utils/ext4fixup.c:513-537 | reading the records puts every block at its place in the list and leaves the rest alone |
| `ExtentTheorems.NewRegions` | ext4_utils/allocate.c:467-480 | a new allocation is apart from everything live, with its first region on top of its group |
| `ExtentTheorems.ExtentsRoundTrip` | ext4_utils/extent.c:75-176 | in any allocator state the extents of a new file lead the walker to every block, and everything stays apart, if the first group asked has two blocks to give; otherwise the last block of the file is not mapped |
| `ExtentTheorems.DirectRoundTrip` | ext4_utils/extent.c:90-107 | up to three regions: reduce_allocation trims the first region because the last pointer names it |
| `ExtentTheorems.IndexedRoundTrip` | ext4_utils/extent.c:108-160 | more regions: the spare block becomes the leaf |
| `ExtentTheorems.MappedBlocksDiffer` | ext4_utils/extent.c:75-176 | no block of the file is reached twice and none is the leaf block |
| `ExtentExample.ThinGroupExample` | ext4_utils/ext4_utils.c:330-344 | a device of 87 blocks in groups of 29: a journal of 27 blocks, the first file, loses its last block |
| `ExtentExample.ThinHeaders` | ext4_utils/make_ext4fs.c:260-290 | two groups of that device keep a single block behind their headers |
| `ExtentExample.OneRegionExample` | ext4_utils/extent.c:75-107 | five blocks in one region: one record, and the spare block goes back |
| `ExtentExample.FourRegionsExample` | ext4_utils/extent.c:108-160 | eleven blocks in four regions: the leaf, its records and the index |
| `ExtentTool.Allocation.GetBlock` | ext4_utils/allocate.c:505-517 | the n-th block of the allocation, or failure past its end |
| `ExtentTool.Allocation.FindCut` | ext4_utils/allocate.c:564-611 | the region that the cut falls into, and how far |
| `ExtentTool.Allocation.ReserveOob` | ext4_utils/allocate.c:564-629 | both lists after reserving, and when it fails |
| `ExtentTool.WriteExtents` | ext4_utils/extent.c:150-160 | one record per region at increasing file blocks |
| `ExtentTool.InodeAllocateExtents` | ext4_utils/extent.c:75-176 | the inode, the leaf and the allocator afterwards equal the specification |
| `ExtentTool.GetExtentEnts` | ext4_utils/ext4fixup.c:513-537 | the two loops fill the block list as the specification does |
| `ExtentTool.GetBlockList` | ext4_utils/ext4fixup.c:539-591 | depth 0 or 1 by the root header |
| `DirPack.ParseInvertsImage` | ext4_utils/contents.c:55-83 | following the record lengths gives back exactly the records written and ends at the end, if and only if all lengths fit 16 bits |
| `DirExample.RecordExample` | ext4_utils/contents.c:74-79 | the twelve bytes of a record |
| `DirExample.OneNameExample` | ext4_utils/contents.c:138-160 | the records of a directory with one name |
| `DirExample.StretchExample` | ext4_utils/contents.c:63-72 | a record that is stretched up to the next block |
| `DirExample.ClosingRecordExample` | ext4_utils/contents.c:47-52 | when the closing record fits into the last block and when it opens another one |
| `DirLayout.StepBound` | ext4_utils/contents.c:34-83 | the fit test of dentry_size never lets add_dentry overtake it, for names of any length |
| `DirLayout.PlacedStays` | ext4_utils/contents.c:63-72 | stretching the previous record keeps every record inside its block |
| `DirLayout.PackingIsRight` | ext4_utils/contents.c:136-161 | all names in order, none across a block, ending no later than counted |
| `DirLayout.RoomRemains` | ext4_utils/contents.c:150-161 | at least eight bytes remain after every entry, so that the internal error cannot occur |
| `DirLayout.DirectoryIsRight` | ext4_utils/contents.c:103-167 | the records fill the directory length exactly; the reader finds precisely these entries if and only if the closing record fits 16 bits |
| `DirLayout.ClosingRecordGrows` | ext4_utils/contents.c:34-83 | with names of 248 bytes the closing record grows by a block for every 240 names |
| `DirLayout.TooManyLongNames` | ext4_utils/contents.c:163-167 | 3855 such names: the reader does not find the directory that was written |
| `DirTool.DentrySize` | ext4_utils/contents.c:34-53 | the counted size |
| `DirTool.AddDentry` | ext4_utils/contents.c:55-83 | the bytes of the buffer after an entry is added in place, the previous record stretched if need be |
| `DirTool.Stretch` | ext4_utils/contents.c:65-72 | the bytes after the previous record length is rewritten |
| `DirTool.MakeDirectory` | ext4_utils/contents.c:91-170 | the buffer holds exactly the bytes of the directory |
| `HashTable.MaskIsRemainder` | libcutils/hashmap.c:97-99 | masking with a power of two less one is the remainder |
| `HashTable.SpreadExample` | libcutils/hashmap.c:80-91 | three values of the secondary hash |
| `HashTable.ExtendedIs` | libcutils/hashmap.c:97-99 | a hash is widened with its sign: the low half is the hash and the high half is 32 copies of its top bit |
| `HashTable.IndexInRange` | libcutils/hashmap.c:97-99 | every hash, negative ones included, has a bucket |
| `HashTable.PutThenGet` | libcutils/hashmap.c:189-249 | a put is seen by every equal key and by no other |
| `HashTable.RemoveThenGet` | libcutils/hashmap.c:221-304 | a removal is seen by every equal key and by no other |
| `HashSteps.ChainHit` | libcutils/hashmap.c:178-234 | a match in the one chain that is searched stands for the class of the key |
| `HashSteps.ChainMiss` | libcutils/hashmap.c:221-234 | no match in that chain means the key is absent from the table |
| `HashSteps.ReplaceKeeps` | libcutils/hashmap.c:209-214 | a new value in place |
| `HashSteps.AddKeeps` | libcutils/hashmap.c:117-122 | an entry added at either end of its bucket |
| `HashSteps.DeleteKeeps` | libcutils/hashmap.c:291-299 | an entry unlinked from its bucket |
| `Hashmap.KeyListOnce` | libcutils/hashmap.c:306-320 | the order of visiting contains every key exactly once |
| `Hashmap.Rehash` | libcutils/hashmap.c:101-130 | the doubled table stands for the same map |
| `Hashmap.Map.constructor` | libcutils/hashmap.c:43-75 | an empty map over the smallest power of two above four thirds of the capacity |
| `Hashmap.Map.Search` | libcutils/hashmap.c:190-217 | the search loop finds the entry of the class or shows that there is none |
| `Hashmap.Map.ExpandIfNecessary` | libcutils/hashmap.c:101-130 | the load factor is back at or below three quarters, the contents are the same |
| `Hashmap.Map.Put` | libcutils/hashmap.c:189-219 | the map is updated for the class of the key; the old value is returned |
| `Hashmap.Map.Get` | libcutils/hashmap.c:221-234 | the value of the class of the key |
| `Hashmap.Map.ContainsKey` | libcutils/hashmap.c:236-249 | whether the class of the key is present |
| `Hashmap.Map.Memoize` | libcutils/hashmap.c:251-282 | the present value, or the initial value, which is then stored |
| `Hashmap.Map.Remove` | libcutils/hashmap.c:284-304 | the map without the class of the key; the old value is returned |
| `Hashmap.Map.ForEach` | libcutils/hashmap.c:306-320 | entries are visited in order, each at most once and all unless the callback stops, also when it removes the entry it is given |
| `Hashmap.Map.ForChain` | libcutils/hashmap.c:311-318 | within a chain the remembered next entry is still next after the callback |
| `StreamFlash.StepKeeps` | src/aboot.c:207-238 | every step of either thread keeps the invariant on locks, buffers, chunks and bytes |
| `StreamFlash.EverySchedule` | src/aboot.c:488-511 | the invariant holds in every state of every schedule |
| `StreamRuns.EachChunkOnce` | src/aboot.c:488-511 | in every interleaving each downloaded chunk is in exactly one buffer or has been written exactly once |
| `StreamRuns.NeverOverwritten` | src/aboot.c:490-509 | no buffer that holds data is written to, and its length is cleared only after its chunk was written |
| `StreamRuns.BytesInOrder` | src/aboot.c:488-511 | bytes written never exceed bytes published, which are at most the stream; they exceed finished if and only if the producer has unlocked a chunk without counting it and the two buffers together hold less than that chunk |
| `StreamRuns.WrittenBeforeCounted` | src/aboot.c:508-511 | a schedule in which they do |
| `StreamRuns.DeliveredIff` | src/aboot.c:219-238 | when the reader has ended everything was delivered if and only if the state in which the producer finished was not the lossy one |
| `StreamRuns.LossyIsReachable` | src/aboot.c:219-228 | a schedule that reaches the lossy state |
| `Sha1Block.SwapIsBigEndian` | ext4_utils/sha1.c:41-43 | the byte swap of blk0 gives the big-endian word |
| `Sha1Block.MixedIsF` | ext4_utils/sha1.c:53-57 | the cheaper forms of choice and majority are the functions of the standard |
| `Sha1Block.RingStep` | ext4_utils/sha1.c:47-48 | the ring of sixteen words holds the schedule of eighty |
| `Sha1Block.TransformBlock` | ext4_utils/sha1.c:126-192 | the transform of one block is the computation of FIPS 180-1 |
| `Sha1Spec.KonstIsRoot` | ext4_utils/sha1.c:53-57 | the four constants are 2^30 times the square roots of 2, 3, 5 and 10, rounded down |
| `Sha1.CountsExactly` | ext4_utils/sha1.c:227-229 | the bit counter is exact if and only if the piece is shorter than 2^29 bytes or the low word runs over |
| `Sha1.PieceFitsIff` | ext4_utils/sha1.c:227-231 | the counter and the test for a complete block are both right if and only if the piece is shorter than 2^29 bytes or the low word runs over, and its end is below 2^32 |
| `Sha1.LongestPieceExample` | ext4_utils/sha1.c:231-240 | sixty bytes and a piece of 2^32 - 10 bytes: the counter is right, but no block is found complete |
| `Sha1.LongPieceExample` | ext4_utils/sha1.c:227-229 | 2^29 bytes leave an empty counter empty |
| `Sha1.CountPlace` | ext4_utils/sha1.c:230-230 | the low counter word gives the place in the block |
| `Sha1.CountField` | ext4_utils/sha1.c:257-260 | the final count is the length field of the standard |
| `Sha1Spec.Big32Is` | ext4_utils/sha1.c:257-260 | the four bytes of a word of the length are its digits, the highest first |
| `Sha1.Context.Absorb` | ext4_utils/sha1.c:231-239 | the state after all complete blocks |
| `Sha1.Context.Take` | ext4_utils/sha1.c:230-240 | state and buffer after the complete blocks and the rest |
| `Sha1.Context.Update` | ext4_utils/sha1.c:217-241 | the context stands for the message so far and the new piece, for every piece that fits |
| `Sha1.Context.Final` | ext4_utils/sha1.c:247-271 | the digest is the fold over the message padded as in section 4 of FIPS 180-1 |
| `Sha1.OutputOrder` | ext4_utils/sha1.c:266-270 | output bytes are the state words, most significant byte first |
| `Sha1Abc.DigestOfAbc` | ext4_utils/sha1.c:126-271 | the digest of abc is the one in appendix A of FIPS 180-1 |
| `Sha1Abc.OutputOfAbc` | ext4_utils/sha1.c:266-270 | the twenty bytes that are put out for it |
| `Sha1.Hash` | ext4_utils/sha1.c:217-271 | however the message is cut into pieces, the digest is that of the whole |
| `MbrDisk.CommitStands` | libdiskconfig/write_lst.c:69-92 | of writes that are apart, every one stands after the commit |
| `MbrDisk.CommitSpares` | libdiskconfig/write_lst.c:69-92 | bytes that no write covers stay as they are |
| `MbrTheorems.PartitionsApart` | libdiskconfig/config_mbr.c:69-207 | partitions and boot records lie in order, disjoint and on the disk |
| `MbrTheorems.ListedApart` | libdiskconfig/config_mbr.c:239-279 | the writes for partitions are pairwise apart |
| `MbrTheorems.ItemsApart` | libdiskconfig/config_mbr.c:239-291 | so are they with the blank entries |
| `MbrTheorems.WalkFindsPartitions` | libdiskconfig/config_mbr.c:225-309 | after the commit a reader of the tables finds exactly the configured partitions, in order, with their places, sizes, types and active flags, whatever was on the disk |
| `MbrTheorems.SlotReads` | libdiskconfig/config_mbr.c:69-129 | every field of the four primary entries: partition, empty, or the extended one up to the end of the disk |
| `MbrTheorems.RecordReads` | libdiskconfig/config_mbr.c:139-207 | every field of a boot record: its partition, and the link that covers the next record with its partition |
| `MbrTheorems.SignatureStands` | libdiskconfig/config_mbr.c:209-223 | the signature stands and the six bytes before the table are cleared |
| `MbrTool.LastFillsTheDisk` | libdiskconfig/config_mbr.c:102-107 | a bootable partition and one that fills the disk |
| `MbrTheorems.PartitionsUntouched` | libdiskconfig/config_mbr.c:225-309 | nothing is written into a partition or over the boot code |
| `MbrTool.FittingIsAccepted` | libdiskconfig/config_mbr.c:256-263 | what fits is accepted |
| `MbrTool.OverflowAccepted` | libdiskconfig/config_mbr.c:256-263 | a partition larger than the disk that the space check accepts |
| `MbrTool.WronglyAcceptedIff` | libdiskconfig/config_mbr.c:256-263 | for every size: a partition that ends behind the disk is accepted if and only if its start and the sectors counted, wrapped at 2^32, are not behind it |
| `MbrTool.StartWrapsIff` | libdiskconfig/config_mbr.c:152-155 | a logical partition is noted at another place than the one behind its boot record if and only if that record is in sector 2^32 - 1 |
| `MbrTool.StartWrapsExample` | libdiskconfig/config_mbr.c:152-155 | a disk on which that happens to a partition that passes the check |
| `MbrTool.CheckIsExact` | libdiskconfig/config_mbr.c:256-263 | when the sum fits 32 bits: a partition that ends behind the disk is accepted if and only if the whole multiples of the sector size in it do not reach behind it, and what fits is accepted |
| `MbrTool.ConfigMbr` | libdiskconfig/config_mbr.c:225-309 | the write list and the start sectors, or nothing exactly when a check fails |
| `MbrTool.MakeEntry` | libdiskconfig/config_mbr.c:69-129 | a primary entry |
| `MbrTool.MakeRecord` | libdiskconfig/config_mbr.c:139-207 | an extended boot record and its link |
| `MbrTool.MakeBlanks` | libdiskconfig/config_mbr.c:281-291 | blank entries for unused slots |
| `MbrTool.WlistCommit` | libdiskconfig/write_lst.c:69-92 | the bytes of the disk after all writes in list order |
| `MbrTool.FindMbrPart` | libdiskconfig/config_mbr.c:315-333 | the number of the first partition of that name, or nothing when there is none |
| `MbrTool.NumbersAgree` | libdiskconfig/config_mbr.c:315-333 | the reader numbers partitions as find_mbr_part does |
| `MbrTool.ApplyDiskConfig` | libdiskconfig/diskconfig.c:432-455 | configuring and committing in place: the reader finds the partitions |
| `Jstring.SeqLengthIs` | libcutils/strdup8to16.c:30-30 | the length table packed in one word, for every byte |
| `Jstring.DecodeInvertsEncode` | libcutils/strdup8to16.c:112-177 | every sequence of UTF-16 units, zeros and lone surrogates included, is decoded from its encoding |
| `Jstring.EncodeUnitIs` | libcutils/strdup16to8.c:107-137 | the shortest form of every unit, with its bits where UTF-8 has them |
| `Jstring.UnitsAreSurrogates` | libcutils/strdup8to16.c:158-170 | a code outside the first plane becomes a high and a low surrogate that stand for it |
| `Jstring.DecodeFourBytes` | libcutils/strdup8to16.c:112-177 | the four bytes of such a code are decoded to these two units, or to the replacement |
| `Jstring.SmileExample` | libcutils/strdup8to16.c:112-177 | the units of U+1F600 |
| `Jstring.BrokenIsReplaced` | libcutils/strdup8to16.c:112-143 | a stray continuation byte and a sequence that breaks off are replaced |
| `Jstring.EncodeHasNoZero` | libcutils/strdup16to8.c:107-137 | no byte of an encoding is zero |
| `Jstring.DecodeFits` | libcutils/strdup8to16.c:68-177 | for every byte string, valid or not, the decoder stores at most the units counted |
| `Jstring.CountedEncoding` | libcutils/strdup8to16.c:68-99 | for an encoding the count is exact |
| `Jstring.CountedFourBytes` | libcutils/strdup8to16.c:68-99 | four bytes count as the two units they become |
| `JstringTool.Strnlen16to8` | libcutils/strdup16to8.c:29-92 | the exact length of the encoding, or one less than the largest size_t when it does not fit |
| `JstringTool.Strncpy16to8` | libcutils/strdup16to8.c:107-137 | the buffer holds the encoding and a terminator |
| `JstringTool.Strlen8to16` | libcutils/strdup8to16.c:68-99 | the count of the specification |
| `JstringTool.GetUtf32` | libcutils/strdup8to16.c:112-143 | the next code and the place behind it |
| `JstringTool.Strcpy8to16` | libcutils/strdup8to16.c:151-177 | the decoded units, never past a buffer of the counted length |

## Left out

- Screens, input, mounts, shell commands, sockets and all file descriptor plumbing: foreign calls only. Memory is never exhausted.
- ext4fixup.c: the repair of a short last record length (lines 680-692), the no-write mode, and checksums. Directories are reached through a `depth` larger than the nesting, where the tool has its stack. Old and new inode numbers are below 2^31.
- ext4_utils/indirect.c: block mapping through indirect blocks; its iterator never leaves a region.
- libsparse: the CRC round trip (writer and reader fold different data), lengths that are not a multiple of the block size, gzip and callback outputs, and reading or writing plain images. Files never merge with each other because their names are compared as pointers.
- SparseQueue.BackedBlockList.Queue: does not model the cache naming a run that was just merged away; the cache counts as unset then.
- SparseIo.OutputFile.WriteBlock: does not model a run that is less than a block short of 2^32 bytes, whose rounded length wraps.
- SparseIo.WriteSparse: does not model such runs either.
- SparseResparse.RoundTakes: does not model raw runs of 2^31 bytes or more, which the code counts wrongly; the same holds for every result about the division.
- SparseDriver.Resparse: does not model the divisions that never end; `SparseResparse.DivisionEndsIff` says which those are.
- SparseRoundTrip.WriteThenRead: does not model chunks of 2^31 blocks or more, which the reader refuses; the fields of the written stream are taken to fit 32 bits.
- tztime.c: time zone files, daylight saving rules, leap seconds and strftime. `time_t` and `long` have 64 bits, `tm_isdst` asks for nothing special. An overflow of an int is taken to wrap around.
- Allocator.BlockAllocator.constructor: does not model devices of 2^32 - blocks_per_group blocks or more, nor headers larger than a group, which are refused; blocks are larger than 1024 bytes, so that the first data block is 0. A group that is full from the start keeps the end of its header as its first free block, where the code stores the end of the group: nothing is ever given out from either.
- Allocator.BlockAllocator.AllocateMultiple: does not model the runs that never end; `AllocModel.StuckNeverEnds` is about those.
- Allocator.BlockAllocator.DoAllocate: does not model the runs that never end, for the same reason.
- AllocModel.RunIsSafe: does not model reductions that use up a region; the only caller gives back one block.
- ExtentTheorems.ExtentsRoundTrip: does not model more regions than fit the leaf block, which the size check at extent.c:131-132 would let through, nor groups of 65536 blocks or more, nor allocations that never end.
- ExtentTool.GetBlockList: does not model index nodes below the root, which this writer never makes.
- ExtentTool.Allocation.ReserveOob: does not model an iterator that stands in the middle; regions are a sequence and not linked nodes.
- DirTool.MakeDirectory: does not model inode numbers of the entries, which are filled in later, nor sizes of 2^32 bytes.
- Hashmap.Map.Put: does not model chains as linked nodes, nor memory running out, nor the lock.
- Hashmap.Map.ForEach: does not model callbacks that change the map other than by removing the current entry.
- Hashmap.Map.ForChain: does not model other callbacks either.
- StreamRuns.EachChunkOnce: does not model a broken pipe or short write, nor the order of chunks in the pipe.
- Sha1Block.TransformBlock: does not model the unrolling; the eighty rounds are a loop and the renamed variables a parallel assignment.
- Sha1.Context.Update: does not model pieces that are counted wrongly or copied past the buffer; `Sha1.PieceFitsIff` says which those are.
- Sha1.Hash: does not model pieces of 2^29 bytes or more, for the same reason.
- MbrTheorems.WalkFindsPartitions: does not model partitions of size 0 or of the extended type, nor sectors below 512 bytes; sector sizes are powers of two.
- MbrTool.ConfigMbr: does not model the size in KB that is noted for a partition that fills the disk.
- MbrTool.WlistCommit: does not model writes past the end of the disk.
- JstringTool.Strlen8to16: does not model an int counter running below its range; `strcpylen8to16` is not part of this model.
- libcutils/mq.c, configuration parsing, superblock filling and uuid generation: no comparable property.
