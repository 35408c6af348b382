# VibeKernel-x86: storage, memory and program loading, verified

This project models three parts of the VibeKernel-x86 kernel and of the tool that fills its disk, and
proves what they promise, separately and together:

* **Storage.** `inject_file.py` writes a file onto a FAT16 image: it claims clusters, links them in every
  copy of the allocation table, writes the data and an 8.3 directory entry. The kernel reads the image back
  through a byte stream over sectors, a walk along the allocation chain with a cached position per open
  file, directory lookup and listing, a path parser and a table of 512 descriptors over two drives.
* **Memory and loading.** A bump and first-fit heap keeps its block headers in memory; two-level page tables
  are allocated from it; the ELF loader and the raw loader fill heap blocks from a file and map them.
* **The keyboard ring**, filled by an interrupt handler and emptied by a foreground reader.

The results meet in `RoundTrips`: bytes injected under an 8.3 name into any well-formed image with room read
back unchanged through the kernel's file calls, under any spelling of the name and in any split of reads
(`InjectThenRead`); and a program injected that way and loaded by name is in the memory of the process
exactly as its program headers ask, or, if it is no ELF file, byte for byte at 0x400000 (`InjectThenLoad`
with `ElfSeesSegment` and `RawSeesAll`), provided that loading it never moves the break of the heap back. Both hold of
any table of files whose first drive holds the image, whatever else is open (`ReadInjected`, `LoadInjected`).

That proviso is a condition on the heap and on the file. Given room below 4 GiB, sizes in range and a heap on
which every block of more than 0xFF0 bytes that starts on a page is live, it is an exact one:

* the break must be at most 0xFF0 into its page at the first request for an aligned block. By then the loader
  has made small requests, for paths, mounts, descriptors and the process structure, which move the break.
  `Start` computes the heap at that point from the heap before the call and the number of parts of the path;
  on a heap without blocks, for a file of the root directory, the break is then 2292 bytes further for a raw
  file and 2020 for an ELF file (`FreshStart`). With the break 1793 bytes into its page a raw file of 100 bytes
  is therefore not loaded: the request for its block goes back over the mount just made (`BreakAt1793`);
* and the file must never move the break back from there (`LoadForward`): a raw file must end at most 0xFF0
  into a page, and so must every ELF segment whose block is followed by another page-aligned one. A raw file of
  4090 bytes breaks it: the page directory's block header is then written over the last bytes of the image
  (`TailExact`, `TailOf4090`).

The loaders of the model stop in both cases, with the outcome `Halted`.

A process that was loaded stays: through any list of file calls and further loads, in any order, it holds the
whole of its file, and no two processes share a block (`RunSession`).

## How to read it

Code that works in place is modelled by classes and methods over arrays (`DiskStream`, `FatFileDescriptor`,
`Files`, `ImageFile`, `KernelHeap` over a 4 GiB memory array, `Keyboard`); expressions are functions. Every
method is proved against a specification that says what it computes: the flat bytes of a file, the first live
item of a directory, one step of the heap's transition system, a flat map from pages to entries.

* `Bytes`, `CStrings`: machine words, multiples of a variable size, blocks laid end to end, C strings.
* `VolumeFormat`, `NewEntry`, `Listing`, `ElfFormat`, `ProcessView`: what the formats and the processor make of the
  bytes, written in plain numbers and without the functions of the code: the boot sector, table and chains of a
  volume, the bytes of a new entry, the records and lines of a directory, the ELF records, the processor's walk.
  The model is proved to agree with them.
* `DiskStream`: sectors that may fail, and the stream over them. A device names the sectors that always read;
  any other may fail at any attempt, so every claim about contents holds under failing data reads.
* `FatLayout`, `FatNames`, `FatDirectory`: positions (exact and in 32-bit arithmetic), chains, names, the
  directory tree, and `WellFormed(img, v)`: the image is a FAT16 volume in good order, as described by `v`.
* `Fat16`, `FatPaths`, `FileRuns`: the reader; runs of reads and seeks as a transition system.
* `PathParser`, `TableRuns`, `Vfs`, `FileReads`, `FileCalls`: paths, runs of interleaved operations on a table
  of descriptors, the table and its calls, the view a client has of one open file, and programs of calls.
  Streams, mounts and descriptors are objects, and each has its block on the modelled heap.
* `ImageWriter`, `InjectFacts`, `InjectTheorems`, `BlankVolume`, `RoundTrips`: the writer, byte by byte; what it
  leaves of a well-formed volume; and writer and reader together. `Certificates`: any two descriptions under
  which an image is well formed agree on every path and every file.
* `HeapModel`, `KernelHeap`: the heap as a transition system, and its headers in memory.
* `Paging`: page tables in memory against a flat map.
* `ProcessMemory`, `ElfLoader`, `ProcessLoader`: filling and mapping blocks, and the two loaders. `LoadStart`:
  the small requests they make before the first aligned one.
* `Sessions`: loads and file calls in any order.
* `Keyboard`: the keys with their signs, the shift state, and the ring at statement level.
* `Witnesses`: the exact conditions at concrete inputs.

A volume is well formed when it has 512-byte sectors, 1 to 128 sectors per cluster, a non-empty root directory
of a multiple of 16 entries and usable clusters below 0xFFF0 that lie inside the image and the table; its
recorded chains follow the table, end in 0xFFF8 or above and share no cluster; every live file is a recorded
chain long enough for its size; nothing but end marks follows an end mark; no chain belongs to two files; and
all copies of the table are the same. `BlankVolume` holds the smallest such volume. That chains are acyclic, and
walks along them end, is then proved.

Where the code does not do what one would expect of it, the exact condition under which it does is proved: the read
length is clipped to the file (`ClipExact`), a seek accepts the valid targets (`SeekExact`), a listing shows what a
lookup finds (`ListingExact`) in one line an item (`LinesArePrinted`), positions fit 32 bits (`GeometryExact`), writer
and reader agree on the data area (`DataStartsAgree`), a name survives encoding (`NameRoundTrip`), the scan stays
among usable clusters (`ScanInRange`), an empty file can be injected (`EmptyFileExact`), an aligned block stays clear
of the last one (`OverlapExact`), the heap list keeps all its blocks (`TruncationExact`), a run of aligned requests
never moves the break back (`AlignedRunExact`), a program is loaded (`LoadInjected`), and a key press is dropped
(`DropExact`). `Witnesses` gives inputs at which the code does something else. For the cached cluster
(`AdvanceCluster`) only one direction can be checked before the call: where all table sectors read, the cache stays in
step. That it does not after a failed read is stated in terms of the link that was returned.

The repository's documentation says little about these parts; where comments and code differ, the code is
followed (the comment "we assume the first file and fresh image" in `inject_file.py:31` is more cautious than
the code, which is proved for any well-formed image).

## Model

| member | source | states |
|---|---|---|
| `DiskStreams.DiskStream.Read` | src/drivers/disk_stream.c:20-53 | for any position and length, delivers that slice of the drive seen as one byte sequence and advances by the length; on any failed sector the position stays; succeeds when the sectors it touches always read |
| `DiskStreams.DiskStream.ReadTwice` | src/drivers/disk_stream.c:20-53 | two reads, one after the other, deliver what one read of both lengths does |
| `CStrings.Strncasecmp` | src/string/string.c:77-90 | 0 exactly when the two strings, cut at n characters, are of one length and at every index hold the same byte or the same letter in its two cases |
| `CStrings.UpperDecides` | src/string/string.c:68-90 | two strings are equal up to case, letter by letter, if and only if the code's upper-casing makes them equal |
| `CStrings.UpperMeans` | src/string/string.c:68-75 | upper-casing leaves no lower-case letter and changes nothing but the case of letters |
| `FatLayout.GeometryExact` | src/fs/fat16.c:84-94 | the 32-bit position of every byte of every possible data cluster is exact if and only if the last cluster ends within 32 bits |
| `FatLayout.GeometrySufficient` | src/fs/fat16.c:84-89 | that holds whenever the data area starts in the first 2304 sectors |
| `FatLayout.ReaderPositionsExact` | src/fs/fat16.c:51-57 | on a well-formed volume neither cluster positions nor table positions wrap, and they lie inside the image |
| `FatLayout.Landmarks` | src/fs/fat16.c:84-94 | boot sector, tables, root directory and every usable cluster lie one after the other inside the image |
| `FatLayout.ClusterOrder` | src/fs/fat16.c:84-89 | clusters occupy ranges that follow each other without overlap, in order of their numbers |
| `FatLayout.DataStartsAgree` | inject_file.py:18-21 | writer and reader place the data area alike if and only if the root entries are a multiple of 16 |
| `FatLayout.ChainAcyclic` | src/fs/fat16.c:73-78 | a chain that ends visits no cluster twice |
| `FatLayout.ChainBounded` | src/fs/fat16.c:73-78 | so it is no longer than the table, and every walk along it ends |
| `FatLayout.ChainsMerge` | src/fs/fat16.c:73-78 | two chains that share a cluster share everything after it |
| `FatLayout.ChainBytesSlice` | src/fs/fat16.c:263-272 | scattered clusters refine one flat sequence: a stretch inside the i-th cluster is the image at that cluster's position |
| `VolumeFormats.BootFields` | src/fs/fat16.h:28-54 | every field the reader uses comes from its offset in the boot sector, and the sector is accepted if and only if bytes 510, 511 and 38, the sector size and the cluster size are as required, in plain numbers |
| `VolumeFormats.Positions` | src/fs/fat16.c:84-94 | table, root directory and clusters lie where the products of the boot sector's numbers put them |
| `VolumeFormats.ChainIs` | src/fs/fat16.c:51-81 | a sequence of clusters is a chain of the model if and only if the image's table entries, as 16-bit words, link it and end it with 0xFFF8 or above |
| `Listings.GatheredIs` | src/fs/fat16.c:263-272 | the contents of a chain are the image bytes of its clusters, one behind the other, at those positions |
| `FatNames.GetFullRelativeFilename` | src/fs/fat16.c:33-49 | the 13-byte buffer holds the decoded name, at most 12 characters, and is filled up with NULs |
| `FatNames.ComparisonIsExact` | src/fs/fat16.c:117-119 | comparing 13 characters is equality up to case, never a prefix match |
| `FatNames.NameRoundTrip` | inject_file.py:81-85 | decoding what the writer encodes gives the name in capitals if and only if the name has the 8.3 form |
| `FatNames.EncodedNameMatches` | inject_file.py:81-85 | a new entry is selected by exactly the strings that differ from its 8.3 name in the case of letters only |
| `FatNames.EncodeItem` | inject_file.py:84-91 | the 32 bytes written parse as an archive item with the given name, first cluster and size |
| `NewEntries.EntryIs` | inject_file.py:81-91 | byte by byte: 8 bytes of the base and 3 of the extension, each the capital of the name's letter, the name's byte or a space; 0x20; fourteen zeros; the first cluster and the size, least byte first |
| `NewEntries.SplitIs` | inject_file.py:81-83 | base and extension are the parts of the name before its first dot and between its first two, for every name |
| `NewEntries.NoLowerCase` | inject_file.py:81 | so no byte of the name field is a lower-case letter, and each is a space, a byte of the name or the capital of one |
| `Listings.RecordMeans` | src/fs/fat16.h:56-70 | for any 32 bytes: the name shown up to the first NUL or space of each field, with a dot if there is an extension; a directory if and only if bit 4 of byte 11 is set; end mark 0x00, deletion mark 0xE5; cluster at 26, size at 28 |
| `FatDirectory.FindIsFirstLive` | src/fs/fat16.c:111-123 | lookup finds something exactly when some live item before the end mark has the name; what it finds is the first such item, with neither an end mark nor another match before it |
| `FatDirectory.ListingExact` | src/fs/fat16.c:186-202 | listing a subdirectory shows exactly its live items if and only if nothing live follows a cluster with an end mark |
| `FatDirectory.EndMarkedIsSilent` | src/fs/fat16.c:186-202 | which holds when nothing but end marks follows the first end mark |
| `Fat16.GetFatEntry` | src/fs/fat16.c:51-65 | the table entry of the cluster, or 0xFFFF only if the table cannot be read |
| `Fat16.GetClusterForOffset` | src/fs/fat16.c:67-81 | the cluster as many links on as the offset has whole clusters, at one table read a link; 0xFFFF only past the end of the chain or on a failed read |
| `Fat16.AdvanceCluster` | src/fs/fat16.c:251-257 | the cache moves one cluster on. Where all table sectors read, which can be checked before the call, it names the next cluster of the chain unless the chain ends there; in general it names one if and only if the call returned a link, and after a failed read it holds 0xFFFF |
| `Fat16.LocateCluster` | src/fs/fat16.c:227-245 | whether it starts from the cache or from the first cluster, it caches the chain element at index position / cluster size, at the cost of the links walked |
| `Fat16.ReadClusters` | src/fs/fat16.c:247-277 | copies exactly the flat contents from the position on, across clusters, stopping early only at the end of the chain or on a failed read; the cache stays in step |
| `Fat16.Read` | src/fs/fat16.c:214-281 | delivers the slice of the flat contents at the position, moves the position by what was delivered, returns the whole items, writes nowhere else, and keeps the cache equal to a walk from the first cluster even when data sectors fail |
| `Fat16.ItemsDelivered` | src/fs/fat16.c:214-281 | a read of items delivers all that were asked for, or as many whole ones as are left of the file |
| `Fat16.ClipExact` | src/fs/fat16.c:217-220 | a read is clipped to what is left of the file if and only if position plus length fits 32 bits |
| `Fat16.Seek` | src/fs/fat16.c:283-305 | sets the position to the wrapped target if it is inside the file, and otherwise refuses and changes nothing; the offset is counted from the start, from the position or from the end |
| `Fat16.SeekExact` | src/fs/fat16.c:285-304 | a seek accepts exactly the targets inside the file, for every position, offset and mode, if and only if the file is shorter than 2^31 bytes |
| `Fat16.ScanItems` | src/fs/fat16.c:111-123 | stops at the first live item of the name, or at an end mark, or at the end, as the abstract lookup does |
| `Fat16.GetSubdirectoryEntry` | src/fs/fat16.c:124-147 | lookup along the chain is lookup in the items of all its clusters laid end to end; it terminates |
| `Fat16.GetDirectoryEntry` | src/fs/fat16.c:101-150 | finds exactly what the abstract lookup finds in the root directory or a subdirectory; the codes -1 and -2 only on failed reads |
| `FatPaths.Resolve` | src/fs/fat16.c:356-390 | mounts exactly the drives with an acceptable boot sector, leaving exactly two new blocks live, the stream's and the mount's; on an error keeps the old mount and no block; no byte of a live block changes |
| `FatPaths.WalkPath` | src/fs/fat16.c:328-345 | the loop reaches what a recursive walk of the directory tree reaches |
| `FatPaths.Open` | src/fs/fat16.c:324-354 | a descriptor, in one new block, at the start of exactly the file the walk reaches; none, and no block, exactly when there is none |
| `FatPaths.ListItems` | src/fs/fat16.c:169-183 | prints one line for each record of the area, as its bytes say, up to the first that starts with 0x00 and without those that start with 0xE5, in order |
| `FatPaths.ListChain` | src/fs/fat16.c:184-203 | prints the live items cluster by cluster along the chain; it terminates |
| `FatPaths.ListingIsTree` | src/fs/fat16.c:184-203 | on a well-formed volume that is exactly what lookup can find in the directory |
| `FatPaths.List` | src/fs/fat16.c:152-205 | prints the live records of the bytes of the directory the path leads to, whose line is the shown name, a slash if and only if bit 4 of byte 11 is set, and a newline; -1 exactly when there is none |
| `FatPaths.TreePrinted` | src/fs/fat16.c:169-203 | the items of a directory in the tree, printed, are the 32-byte records of the root area or of the clusters of its chain, printed |
| `Listings.LinesArePrinted` | src/fs/fat16.c:178-182 | the text split at its newlines has exactly one line a live record, in order, if and only if no shown name holds a newline |
| `FileRuns.PositionInside` | src/fs/fat16.c:279-305 | over every run of reads and seeks the position stays inside the file |
| `FileRuns.ReadsCompose` | src/fs/fat16.c:214-281 | the reads of a run, however split, deliver together one slice of the contents |
| `FileRuns.ForwardCost` | src/fs/fat16.c:232-257 | over a run that only moves forward the table entries read are exactly the advance of the cached index |
| `FileRuns.ForwardCostBounded` | src/fs/fat16.c:232-257 | hence at most the number of clusters of the file less one |
| `PathParser.PartsAreComponents` | src/fs/path_parser.c:24-43 | the parts of any text are its components before the first empty one |
| `PathParser.ParseOfPrint` | src/fs/path_parser.c:7-15 | parsing undoes printing for drives 0 to 9 and any non-empty slash-free parts, with or without a final slash |
| `PathParser.GetNextPart` | src/fs/path_parser.c:24-43 | a fresh block holds the next part, terminated, and the cursor stands behind its slash; no block is left for an empty part |
| `PathParser.Parse` | src/fs/path_parser.c:45-72 | the linked list of exactly the parts, or null without a drive; exactly the blocks of the path become live, and every byte of what was live stays |
| `PathParser.Free` | src/fs/path_parser.c:74-83 | gives back each block once: after parsing and freeing the live blocks are those before, with every byte, and the break does not move |
| `Vfs.Files.Fread` | src/fs/file.c:129-133 | one step of the table, on the descriptor alone: the right slice lands in the buffer, nothing else changes there, no other open file changes, and the cost of the step is the number of table entries fetched |
| `Vfs.Files.Fseek` | src/fs/file.c:135-139 | moves one descriptor to the wrapped target or refuses; for files below 2^31 bytes one step of the table, accepted exactly for targets inside the file |
| `Vfs.Files.Fclose` | src/fs/file.c:153-162 | gives back the descriptor's two blocks and empties exactly its slot; every other open slot keeps its blocks, and every other live block its bytes |
| `Vfs.Files.ResolveDrive` | src/fs/file.c:57-64 | replaces the mount of one drive, in two new blocks, under which every open file stays as it was |
| `Vfs.Files.Install` | src/fs/file.c:40-50 | the lowest free slot i gets number i + 1 and a descriptor in one new block; -7, and no block, exactly when none is free |
| `Vfs.Files.Fopen` | src/fs/file.c:73-127 | the code names the first obstacle in the order the code meets them, or the lowest free slot, which then holds the file the path leads to at its start; no other slot changes. Exactly these blocks become live: stream and mount once the drive is mounted, the file system's descriptor once the file is found, the slot's once there is one; those of the path are given back, and every block that was live keeps its bytes |
| `Vfs.Files.ModeDecides` | src/fs/file.c:66-103 | only a mode that starts with r opens anything; one that starts with w or a gets -6, and any other gets -5 |
| `Vfs.Files.DescriptorIs` | src/fs/file.c:52-55 | a number has a descriptor if and only if it is one of 1 to 512 and its slot is in use |
| `Vfs.Files.FsList` | src/fs/file.c:164-184 | prints the live records of the directory the path leads to, or gives the code of the first obstacle; open files stay; exactly the stream and the mount become live if the drive was mounted, and no block otherwise; every block that was live keeps its bytes |
| `Vfs.Files.ListedLines` | src/fs/file.c:164-184 | what it prints has one line a live record of the directory's bytes, in order, the shown name with a slash behind that of a directory, if and only if no shown name holds a newline |
| `TableRuns.Alone` | src/fs/file.c:129-162 | in any run of the table, the operations on a descriptor that stays open are a run of its file alone |
| `TableRuns.AloneDelivers` | src/fs/file.c:129-162 | so its reads deliver its file in order whatever happens in between |
| `TableRuns.AloneCost` | src/fs/fat16.c:232-257 | and if no seek on it goes back, its reads fetch at most one table entry less than the file has clusters |
| `FileCalls.Perform` | src/fs/file.c:73-184 | each of the five calls is one step of the table, and answers what its step says: a read on a reliable drive delivers all that was asked for up to the end of the file, an open call that succeeds opens the file its path leads to, and on a reliable drive it answers with the first obstacle otherwise, a list call on a reliable drive prints the directory at its path |
| `FileCalls.RunCalls` | src/fs/file.c:73-184 | any list of calls is a run of the table, call by call; blocks that are no descriptor's stay live and keep every byte |
| `FileCalls.ReadAmong` | src/fs/file.c:73-184 | so whatever a list of calls does to other descriptors, opens and closes, its reads on one that stays open deliver one slice of its file, and from the start on cost at most its clusters less one |
| `FileReads.ReadAt` | src/fs/file.c:129-133 | seen by a client: the bytes at the position, and the position moves by their number |
| `FileReads.SeekTo` | src/fs/file.c:135-139 | seen by a client: any position inside the file, otherwise none |
| `FileReads.OpenRead` | src/fs/file.c:73-127 | opens exactly the file the path names, at its start, and leaves four blocks live; and exactly which heap an open that succeeds leaves |
| `ImageWriter.ReadGeometry` | inject_file.py:7-21 | the positions the writer derives from the boot sector, or an exception for a short image |
| `ImageWriter.OverwriteAt` | inject_file.py:60-91 | every byte of a file after a write at any position: the data, the old bytes, or zeros in a gap behind the old end |
| `ImageWriter.FindRootSlot` | inject_file.py:33-39 | the first root entry that is unused or deleted, or none, or an exception where the image ends first |
| `ImageWriter.FindFreeClusters` | inject_file.py:46-53 | the first free clusters, as many as needed or all there are |
| `ImageWriter.LinkChain` | inject_file.py:60-67 | every copy of the table gets the links of the chain and an end mark |
| `ImageWriter.WriteClusters` | inject_file.py:70-76 | every cluster of the chain starts with its piece of the data |
| `ImageWriter.WriteEntry` | inject_file.py:79-91 | the entry as one 32-byte item, or the part of it written before an exception |
| `ImageWriter.Inject` | inject_file.py:5-91 | for every image, data and ASCII name: the outcome and every byte of the image afterwards; and where it succeeds, what `NewEntry` says of the entry |
| `ImageWriter.NewEntry` | inject_file.py:33-91 | whatever the image, if the program succeeds then the first unused or deleted root entry, at its place by the boot sector's numbers, holds the bytes that `EntryIs` describes, with the first cluster whose table entry is 0 and the length of the data |
| `InjectFacts.ScanInRange` | inject_file.py:46-57 | the scan takes enough clusters, all usable, if and only if there are enough free ones among the usable; otherwise it fails or takes one beyond |
| `InjectFacts.TableLinked` | inject_file.py:60-67 | the entries of the new chain hold its links, and every other table entry is as before |
| `InjectFacts.CopiesStayIdentical` | inject_file.py:60-67 | identical copies of the table stay identical |
| `InjectFacts.RootEntered` | inject_file.py:79-91 | the root directory changes in exactly one item |
| `InjectFacts.OtherCluster` | inject_file.py:70-76 | every cluster outside the new chain keeps its bytes |
| `InjectFacts.ChainHoldsData` | inject_file.py:70-76 | the clusters of the new chain, laid end to end, start with the data |
| `InjectTheorems.InjectedIs` | inject_file.py:27-91 | with a root entry and enough usable clusters the program succeeds, in the first entry that is not live and in free clusters |
| `InjectTheorems.EmptyFileExact` | inject_file.py:45-57 | an empty file goes through if and only if the image holds all 65536 table entries and one from the second on is 0 |
| `InjectTheorems.ChainsAfter` | inject_file.py:60-67 | all recorded chains stay chains, and the new one is a chain that shares no cluster with them |
| `InjectTheorems.WellFormedAfter` | inject_file.py:33-76 | injection keeps the image well formed: chains disjoint, copies identical, nothing live after an end mark, no chain in two files |
| `InjectTheorems.FindAfter` | inject_file.py:35-39 | after injection a name finds what precedes the new entry, else the new entry if it spells its name, else what it found before |
| `InjectTheorems.WalkAfter` | inject_file.py:78-91 | a path reaches the new file if and only if it leads to the root directory and ends in a spelling of its name; every other path reaches what it reached before |
| `InjectTheorems.DirectoriesKept` | inject_file.py:78-91 | every path leads to the same directory as before |
| `InjectTheorems.OldBytesKept` | inject_file.py:59-76 | every file in good order keeps its bytes |
| `InjectTheorems.InjectionStores` | inject_file.py:5-91 | under a fresh name, with room: success, a well-formed volume, all old paths and contents, and the new file with its data, empty or not |
| `InjectTheorems.RoundTrip` | inject_file.py:5-91 | under a fresh 8.3 name the path of any string that differs from it in case only reaches the new file, whose bytes are the data; the all-lower and the all-upper spelling are two of them |
| `NewEntries.Spellings` | src/string/string.c:77-90 | every string differs in case only from itself in small letters and from itself in capitals |
| `BlankVolumes.BlankInjectable` | inject_file.py:30-57 | a fresh blank volume is well formed and has room for any file of one cluster under any ASCII 8.3 name |
| `RoundTrips.ReadPieces` | src/fs/file.c:129-133 | reads of any sizes, one after the other, are a run of the file and fill the buffer with its contents in order |
| `Certificates.SameFiles` | src/fs/fat16.c:307-354 | under any two descriptions of a well-formed image every path leads to the same file with the same bytes |
| `RoundTrips.ReadInjected` | inject_file.py:5-91 | writer and reader together, on any table of files with a free slot whose first drive holds the image after an injection and reads reliably: the file, opened under any spelling of its name and read in any split, comes back unchanged, every other open file stays, and the open file has exactly four new blocks |
| `RoundTrips.InjectThenRead` | inject_file.py:5-91 | the same from the injection on, with the image mounted and nothing open |
| `RoundTrips.LoadInjected` | src/task/process.c:44-112 | writer and loader together, on any table of files whose first drive holds the image: an injected program is refused only if it is none, and if loaded is held by the process. Given room, sizes in range and every large block on a page live before the call, it is loaded if and only if the break is at most 0xFF0 into its page at the first aligned request and loading the program never moves it back; that break is computed from the heap before the call, and on a heap without blocks is a constant further. Without the condition on blocks it is loaded whenever that break and all tails leave room for two headers |
| `RoundTrips.InjectThenLoad` | src/task/process.c:44-112 | the same from the injection on, with the image mounted and nothing open |
| `RoundTrips.RootAmple` | src/task/process.c:44-112 | if the break leaves the slack of the small requests and two headers on its page before the call, it leaves two headers at the first aligned request |
| `HeapModel.BumpBackward` | src/memory/heap/kheap.c:57-64 | the aligned bump moves the break back if and only if less than a header is left on its page; the payload starts on a page; the move is at most a page less a header |
| `HeapModel.AllocateSafe` | src/memory/heap/kheap.c:27-80 | an allocation that does not move the break back keeps all blocks disjoint and the list ascending, and hands out a block that was not live, is large enough and, if asked, starts on a page |
| `HeapModel.AllocateWhere` | src/memory/heap/kheap.c:27-109 | which block an allocation hands out, for every state: the first free one of the list that is large enough, if that starts on a page where one is asked for, and else a new one at the break or at the next page |
| `HeapModel.AllocateLive` | src/memory/heap/kheap.c:27-80 | it adds exactly one address to the live ones, and a new one |
| `HeapModel.ReleaseLive` | src/memory/heap/kheap.c:127-132 | a release removes exactly its address |
| `HeapModel.OverlapExact` | src/memory/heap/kheap.c:57-65 | an aligned new block stays clear of the last block if and only if the break is at most 0xFF0 into its page; the break advances by size + 1 to size + 4096 |
| `HeapModel.TruncationExact` | src/memory/heap/kheap.c:46-65 | linking a new block keeps the whole list if and only if first-fit found no free block to reject for its alignment, or the list has one block |
| `HeapModel.RunSafe` | src/memory/heap/kheap.c:27-132 | over every run without a backward bump blocks stay disjoint and in place, the list stays strictly ascending and a subsequence of all blocks, and a block once cut off is never found again |
| `HeapModel.GranularRunsAreSound` | src/memory/heap/kheap.c:57-64 | a run never moves the break back if its start and all sizes are multiples of 16 |
| `HeapModel.AlignedRunExact` | src/memory/heap/kheap.c:57-64 | with every block on a page that is as large as the smallest request live, a run of aligned requests never moves the break back if and only if the break, and every request but the last, end at most 0xFF0 into their page |
| `HeapModel.TailExact` | src/memory/heap/kheap.c:57-64 | with every block on a page that is as large as the requests live, the next aligned block starts inside the last payload if and only if that ends more than 0xFF0 into its page; its header then covers the payload from offset 0xFF0 of that page on |
| `HeapModel.TailOf4090` | src/task/process.c:86-98 | after a block of 4090 bytes a page directory's block starts 4080 bytes into it |
| `HeapModel.OwnedApart` | src/memory/heap/kheap.c:27-80 | the payloads of two live blocks do not overlap |
| `KernelHeaps.KernelHeap.FindFreeBlock` | src/memory/heap/kheap.c:82-89 | walking the headers in memory ends, at the first free block that is large enough, with the trailing pointer on the block before |
| `KernelHeaps.KernelHeap.RequestSpace` | src/memory/heap/kheap.c:91-109 | a new block at the break, its header and the link to it in memory, and no other byte changed |
| `KernelHeaps.KernelHeap.KmallocInt` | src/memory/heap/kheap.c:27-80 | exactly one allocation of the transition system, writing nothing but block headers |
| `KernelHeaps.KernelHeap.Kfree` | src/memory/heap/kheap.c:127-132 | exactly one release, writing nothing but a block header |
| `KernelHeaps.PayloadClear` | src/memory/heap/kheap.c:27-132 | no byte of a block's payload lies in a header, so no heap operation changes it |
| `KernelHeaps.AllocateSpares` | src/memory/heap/kheap.c:27-80 | an allocation leaves every live block live, with every byte |
| `KernelHeaps.ReleaseSpares` | src/memory/heap/kheap.c:127-132 | so does a release, for every block but its own |
| `KernelHeaps.HeaderBytes` | src/memory/heap/kheap.c:12-17 | in memory every payload is preceded by 16 bytes: the size, the next header, 1 in a released block and 0 otherwise, and one of the two magic numbers |
| `KernelHeaps.LinkBytes` | src/memory/heap/kheap.c:12-17 | and the second word is the address of the next block of the list, 0 at its end |
| `KernelHeaps.KernelHeap.ServeAll` | src/memory/heap/kheap.c:27-132 | any list of requests without a backward bump is exactly a run of the transition system, and no byte of any block there was changes, over the whole run |
| `Paging.WalkIsFlat` | src/memory/paging/paging.c:80-100 | the processor's two-level walk is the flat map, cut to present pages |
| `Paging.RightsAreThePtes` | src/memory/paging/paging.c:95-97 | the rights of a page are those of its table entry, because every directory entry grants all |
| `Paging.PagingSet` | src/memory/paging/paging.c:73-106 | changes the flat map at one page and nowhere else, taking a page from the heap exactly when the directory slot has no table, or refuses an unaligned address; memory outside tables and headers stays |
| `Paging.PagingNew4gb` | src/memory/paging/paging.c:10-37 | identity with the given flags on the first 64 MB and nothing elsewhere, in pages nothing owned before; and where the break then stands |
| `Paging.RunSets` | src/memory/paging/paging.c:73-106 | after any run of settings each page has the value set last, or its old one |
| `Paging.NewThenSet` | src/memory/paging/paging.c:10-106 | `paging_new_4gb` and then any run of settings: the processor's walk finds the identity on the first 64 MB overlaid by the settings, the latest last, cut to the present pages |
| `Paging.OverlayIsLatest` | src/memory/paging/paging.c:100 | the value of a page after a run is that of the last setting that hit it |
| `Paging.OverlayUntouched` | src/memory/paging/paging.c:75-78 | a page that no setting hits, an unaligned one included, keeps its value |
| `ProcessMemory.MapPages` | src/loader/elf.c:70-73 | the mapping loop gives every page of a segment the next frame of its block, open to the process; given room, it goes through if and only if the heap is steady or no table is missing |
| `ProcessMemory.HeldEvolves` | src/loader/elf.c:56-74 | a segment in memory keeps its bytes through every later allocation and page setting |
| `ProcessMemory.HeldBeside` | src/loader/elf.c:57-62 | and through writes to any other live block |
| `ProcessMemory.ReleasedBeside` | src/fs/file.c:153-162 | giving back two blocks that are none of the process leaves its address space and segments as they are |
| `ProcessMemory.NewProcessSpace` | src/loader/elf.c:42 | a new address space, if and only if the break is at most 0xFF0 into its page and there is room; a new block beside it holds the directory's address |
| `ProcessMemory.MapScreen` | src/loader/elf.c:44-45 | maps the text screen and never needs memory for it; what the process then sees there is said by `ElfSeesElsewhere` and `RawSeesAll` |
| `ProcessMemory.SegmentSetsAt` | src/loader/elf.c:70-73 | which page gets which frame, exactly; a segment at an unaligned address gets none |
| `ElfLoader.ReadSegment` | src/loader/elf.c:60-66 | the file's part of the segment, from its offset or, after a failed seek, from behind its header; fails only for an empty part or one outside the file |
| `ElfLoader.LoadSegment` | src/loader/elf.c:56-74 | one more segment in a block of its own, filled, zeroed and mapped, with the file back at the program headers and all earlier segments in place; given room, if it fits its memory and every large block on a page is live, it is stopped if and only if the break is more than 0xFF0 into its page or would go back |
| `ElfLoader.LoadHeader` | src/loader/elf.c:49-75 | the i-th header is read at the table start plus 32 * i, whatever seeks the earlier segments made; `ProgramDecodes` says what is read from it |
| `ElfLoader.LoadSegments` | src/loader/elf.c:47-75 | all segments in order; on a readable drive refused exactly when a header or a segment cannot be read; and from a steady heap the same exact condition for the whole loop, computed from the headers |
| `ElfLoader.TailsSuffice` | src/loader/elf.c:56-73 | a program whose segments all end at most 0xFF0 into their page meets that condition |
| `ElfLoader.ElfLoad` | src/loader/elf.c:21-83 | a loaded process holds exactly the file the name leads to, beside everything that was live before, every byte of which stays whatever the outcome; refused only if there is no such file or it is no acceptable ELF file; given room, fitting sizes and every large block on a page live at the first aligned request, stopped if and only if the break is then more than 0xFF0 into its page or would go back; which heap that is is computed from the heap before the call and the path. Structure, name and directory pointer as for `ProcessLoad` |
| `ElfLoader.ElfSeen` | src/loader/elf.c:47-75 | for page-aligned, page-disjoint segments, virtual address vaddr + k reads file byte k of the segment below filesz and 0 from there to memsz, and may be read and written |
| `ElfFormats.ProgramDecodes` | src/loader/elf.h:40-49 | a program header, encoded field by field in the order of the ABI, is read back as its type, offset, address and two sizes |
| `ElfFormats.HeaderDecodes` | src/loader/elf.h:15-30 | and a file header as its entry point, table offset and number of program headers; it is valid if and only if it starts with the magic number and the 32-bit class |
| `ElfFormats.RecordsAccepted` | src/loader/elf.c:26-75 | a file whose table holds such records is accepted if its header is valid and every segment to be loaded has bytes in the file |
| `ElfFormats.AcceptedStarts` | src/loader/elf.c:9-35 | no file is accepted that does not start with the magic number and the 32-bit class |
| `ProcessViews.TranslateIs` | src/memory/paging/paging.c:80-100 | the walk of the model is the walk of a processor, given in shifts and masks of the address and bits of the entries |
| `ProcessViews.ElfSeesSegment` | src/loader/elf.c:47-75 | for a file of such records with segments on pages of their own: address vaddr + k reads byte offset + k of the file below filesz and 0 from there to memsz, and the process may write there |
| `ProcessViews.ElfSeesElsewhere` | src/loader/elf.c:42-75 | the process starts at e_entry; outside its segments it sees the screen at 0xB8000 and may use it, the rest of the first 64 MB is the identity without user access, and nothing else is there |
| `ProcessLoader.ReadMagic` | src/task/process.c:46-54 | the first four bytes of the file; the descriptor table is as before, and of the blocks only the stream and the mount stay |
| `ProcessLoader.SpaceForImage` | src/task/process.c:93-98 | the new address space takes no byte from the image already in memory; made if and only if the break is at most 0xFF0 into its page and there is room |
| `ProcessLoader.LoadRawOpened` | src/task/process.c:77-109 | from the open file on: given room and every large block on a page live once the file is closed, loaded if and only if the break and the image end at most 0xFF0 into their pages |
| `ProcessLoader.LoadRaw` | src/task/process.c:60-109 | a loaded process holds the whole file as a raw image; refused only if there is no such file or it is empty; given room and every large block on a page live once the file is closed, stopped if and only if the file ends more than 0xFF0 into a page, or the break is more than 0xFF0 into its page once the file is open, which is computed from the heap before the call and the path |
| `ProcessLoader.ProcessLoad` | src/task/process.c:44-112 | ELF files through the ELF loader, anything else of four bytes or more as a raw image; refused only if neither can be; whatever the outcome, everything that was live stays live with every byte; under the same conditions stopped if and only if the break is more than 0xFF0 into its page at the first aligned request, or loading the file would move it back from there. A loaded process has a structure in a block of its own, with the name of the file and the way to its page directory through another new block |
| `ProcessLoader.StartGrows` | src/task/process.c:44-86 | the small requests of a load move the break forward by at most the slack of its path |
| `Vfs.OpenGrows` | src/fs/file.c:73-162 | opening a file moves the break forward by at most a bound from its path, and closing it not at all |
| `LoadStarts.StartKeepsPages` | src/task/process.c:44-98 | if every large block on a page is live before a load, so it is at the first aligned request, and once the file is closed |
| `LoadStarts.FreshStart` | src/task/process.c:44-86 | on a heap without blocks, for a file of the root directory, the break at the first aligned request is 2292 bytes further for a raw file and 2020 for an ELF file |
| `Sessions.HoldsSpared` | src/task/process.c:44-112 | whatever leaves the blocks of a loaded process live with their bytes leaves the process as it is: its map, its segments and what it sees |
| `Sessions.BlocksLive` | src/task/process.c:44-112 | the directory, the tables and the segments of a loaded process are live blocks, and none of those that were live before it |
| `Sessions.RunSession` | src/task/process.c:44-112 | loads and file calls in any order and number: at the end every process that was loaded, whatever came after, still holds the whole of its file, mapped as before, with a structure that says so, and no two of them share a block, those of the structures included; the session stops early only for want of room, or where a load stopped the model |
| `ProcessLoader.RawSeen` | src/task/process.c:86-107 | virtual address 0x400000 + k reads byte k of the file, and may be read and written |
| `ProcessViews.RawSeesAll` | src/task/process.c:86-107 | the process starts at 0x400000 and reads the file there byte for byte; everywhere else it sees the screen, the identity without user access, or nothing |
| `Keyboards.StepKeeps` | src/drivers/keyboard.c:56-79 | every statement of handler or reader keeps buffer, indices and both program counters consistent |
| `Keyboards.EveryInterleaving` | src/drivers/keyboard.c:56-79 | over every statement-level interleaving what was consumed is a prefix of what was accepted, at most 255 characters wait, and no store hits the slot between the reader's test and its advance |
| `Keyboards.DropExact` | src/drivers/keyboard.c:60-61 | a key is dropped if and only if 255 characters wait at the check |
| `Keyboards.KeyOfCap` | src/drivers/keyboard.c:13-33 | every scancode gives the sign of its key on a US keyboard: the digit row 1 to 9 and 0 and its signs, the letter rows in small letters and with shift in capitals; enter, backspace, tab and space do not depend on shift |
| `Keyboards.ShiftIs` | src/drivers/keyboard.c:43-54 | over every interleaving shift is active if and only if the last event of a shift key was a press |
| `Keyboards.NothingLost` | src/drivers/keyboard.c:40-68 | as long as that never happens, the characters accepted, with the one in flight, are the text of the scancodes: for each press of a key the sign on its cap, shifted if the last event of a shift key was a press |
| `Keyboards.Keyboard.Handle` | src/drivers/keyboard.c:40-68 | the handler is a run of its statements, wherever the reader stands: it accepts the character of the key under the shift state, unless 255 wait, and the shift state follows the shift keys |
| `Keyboards.Keyboard.HasKey` | src/drivers/keyboard.c:71 | the test is true exactly when a character waits |
| `Keyboards.Keyboard.FetchKey` | src/drivers/keyboard.c:76 | the fetch yields the oldest accepted character not yet consumed |
| `Keyboards.Keyboard.AdvanceTail` | src/drivers/keyboard.c:77 | the advance consumes exactly that character |
| `Witnesses.LongReadNotClipped` | src/fs/fat16.c:217-220 | one byte into a file of two, a read of 2^32 - 1 bytes is not clipped |
| `Witnesses.NegativeSeekAccepted` | src/fs/fat16.c:285-304 | in a file of 2^31 bytes a negative target is accepted |
| `Witnesses.SeeksFromThree` | src/fs/fat16.c:287-297 | at position 3 of a file of 10 bytes: targets of the three modes, and two that are refused |
| `Witnesses.ListedNotFound` | src/fs/fat16.c:186-202 | a live item in the cluster after one with an end mark is listed and never found |
| `Witnesses.NineLetters` | inject_file.py:81-85 | a name of nine letters does not survive encoding |
| `Witnesses.BlankBin` | inject_file.py:81-85 | blank.bin gets the name field BLANK, three spaces and BIN, and is shown as BLANK.BIN |
| `Witnesses.LiveBlockCutOff` | src/memory/heap/kheap.c:46-65 | a request that rejects the first block for its alignment cuts a live block off the list |
| `Witnesses.LastClusterWraps` | src/fs/fat16.c:84-89 | with 64 KiB clusters and a data area from sector 2305 on, the last byte of the last possible cluster is sought at byte 511 |
| `Witnesses.ScanOutside` | inject_file.py:45-53 | for a file of two clusters on the blank volume, which has one, the scan takes a cluster the volume does not have |
| `Witnesses.EmptyFileFails` | inject_file.py:45-57 | on the blank volume no empty file can be injected |
| `Witnesses.RawTails` | src/task/process.c:86-98 | on a heap without blocks whose break starts a page, a raw file of 4090 bytes in the root directory is not loaded, one of 4080 bytes is not stopped |
| `Witnesses.BreakAt1793` | src/task/process.c:44-86 | on a heap without blocks a raw file of 100 bytes in the root directory is not loaded if the break is 1793 bytes into its page, and not stopped five bytes earlier |
| `Witnesses.SegmentTail` | src/loader/elf.c:56-57 | on any heap whose large blocks on pages are live, no program is loaded that has a segment after a first one of 4090 bytes at 4 MB |

## Left out

- ATA polling, port I/O, serial and VGA output: a sector read is an abstract operation that may fail, and printing appends to a byte sequence.
- CR0 and CR3 loads and TLB flushes (src/memory/paging/paging.c:39-71): only the tables in memory are modelled; the processor's walk is stated over them.
- Boot code, GDT, IDT, PIC, the command line and src/task/task.c: not part of this model, and nothing is claimed about user stacks.
- Out-of-memory: the heap has no limit check, so every allocation is stated for addresses below 4 GiB; the loaders stop with `Halted` where that would fail.
- KernelHeaps.KernelHeap.KmallocInt: requests that move the break back into the last block are not executed; `HeapModel.OverlapExact` and `HeapModel.TailExact` say where the new block then lies.
- Backward bumps: the loaders stop with `Halted` before an aligned allocation if the break is more than 0xFF0 into its page, at the first aligned request or a later one. Where a free block on a page would serve the request the code would go on; the conditions for loading are therefore exact on heaps on which every block of more than 0xFF0 bytes on a page is live, and sufficient on others. What the code does after a backward bump is not modelled.
- Paging.PagingNew4gb: flags include the present bit, as at every call, and the break is at most 0xFF0 into its page.
- ElfLoader.LoadSegment: also stops with `Halted` for a segment whose filesz exceeds its memsz or whose memsz is 2 GiB and more, which the code does not check, and for files of 2 GiB and more.
- ElfLoader.ReadSegment: stated for segments whose filesz is at most their memsz; a longer part would be read past the segment's block.
- ElfLoader.ElfLoad: requires a file name that fits the 32 bytes of `struct process`; the bytes of that structure in memory, the process list and process numbers are not modelled, only that it has a block of its own and what its fields say.
- ProcessLoader.LoadRaw: a failed read leaves its descriptor open, as in the code.
- Sessions.RunSession: what the file calls of a session answer is stated for lists of calls only (`FileCalls.RunCalls`); what a running program writes to its own pages is not modelled.
- Vfs.Files.Fread: stated for position plus length below 2^32; `Fat16.ClipExact` says what the clip does beyond.
- Vfs.Files.Fseek: for files of 2^31 bytes and more only the wrapped behaviour is stated; `Fat16.SeekExact` shows the valid targets are then not accepted exactly.
- Vfs.Files.Fopen: the contents of streams, mounts and descriptors are fields of objects and not bytes in their heap blocks; which heap is left is exact for an open that succeeds, and an upper bound on the break for others; paths have parts of at most 255 characters.
- PathParser.GetNextPart: a part of 256 characters and more, which the code copies past its buffer, is not modelled.
- Vfs.Files.ResolveDrive: one file system is registered, so the table of file systems is not modelled.
- FileCalls.Perform: stated for volumes whose chains are shorter than 2 GiB and reads of less than 2 GiB, so that no position wraps.
- Fat16.Read: the cache claim needs allocation-table sectors that read; data sectors may fail.
- KernelHeaps.KernelHeap.Kfree: a pointer to no block is ignored only where no magic number happens to lie before it, which is a requirement here.
- Links 0xFFF0 to 0xFFF7, long file names, volume labels, FAT12 and FAT32: no well-formed volume here has them.
- ImageWriter.Inject: names are ASCII, as `encode('ascii')` demands; the partial image after that error is not modelled.
- Attribute flags of `fstat` (src/fs/fat16.c:312-323), only its size: an easy member.
- `keyboard_push` as a second producer, and that the waiting reader is woken up.
- Keyboards.Keyboard.HasKey: the `hlt` between two tests is not modelled.
