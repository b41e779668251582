# Verification of hpcc's core algorithms

hpcc distributes compiles to workers that run them in micro-VMs. This project models, in Dafny, the
parts of it where a mistake would silently produce a wrong result:

* the streaming squashfs 4.0 writer that builds the root file systems (`squashfs/`),
* the content-addressed exchange of sources between client and worker (`internal/worker`,
  `internal/compiler/manifest.go`, the upload in `internal/daemon/dispatch`),
* the GNU command-line grammar, its rewriting, and the part of the cache key made from it
  (`internal/compiler`),
* the scheduler (`internal/scheduler`),
* the compile cache's entry protocol and its side-output codec (`internal/cache`).

`dafny verify dfyconfig.toml` checks the whole project.

## How it is built

Code that works on values is modelled by functions. Code that updates state is modelled by classes
and loops with the source's fields and steps (`StreamWriter`, `Metadata.MetaWriter`,
`IdTable.IdTable`, `ClosePasses.EntryTable`, `TablePasses`, `CloseImage`, `CasTransfer`, `Argv`,
`Scheduler`, `CompileCache`), each method proved against a function of its inputs and old state; what
the source promises is then proved about those functions. The squashfs part adds a reader
(`ImageReader`), written from the kernel's description of the format (sections 3.1 to 3.6 of
"Squashfs 4.0 Filesystem"): the repository has none, and an image has no meaning without one.

Main results:

* `ImageExact.ImageReadsBack`: for every sequence of calls, refused ones and writes through stale
  writers included, that `Close` turns into an image, the reader recovers exactly the tree that was
  asked for, at every path, if and only if no directory listing exceeds its 32-bit byte count.
  `ImageTree` says what that means path by path, and `CallHistory.CallShown` call by call: which calls
  take effect, and what each of them shows in the image.
* `StreamWriter.Writer.Close`: the image is a function of the calls, whatever order the Go maps are
  ranged over in.
* `WriterProofs.RunInv`: the layout of file data over every interleaving of calls.
* `LongListing.LongRunCloses`: such a listing can be reached, and `Close` reports success for it.
* `Closable.ClosesIff`: when `Close` succeeds, as one condition on the tree, failures of large
  directories included.
* `CasDance.FilesArrive`: from the client's files through manifest, probe, upload and staging to the
  worker's source directory; `CasDance.ExchangeOkIff`: exactly when the transfer succeeds.
* `CasTransfer.Worker.UploadBlobs` with `UploadConserves`, `UploadStores`, `UploadSound`,
  `UploadOneTenant`: the incremental receive loop is "cut at the headers, join, hash";
  `CasStream.UploadExact`: what it stores, by position in the stream, however the stream ends.
* `Staging.AcceptedInside`: exactly the relative paths that never climb out are staged.
* `Manifest.DigestSettledIff`: the manifest digest is independent of sort ties if and only if no path
  comes with two digests.
* `Argv.RewriteReparses`: a rewritten command line, parsed again, means the same compile;
  `ArgvMeaning`: what any command line means, field by field, in terms of the flags as they are spelled.
* `CacheKey.KeyInjective` and `CacheKey.DepFlagsInvisibleIff`: what the key distinguishes, and
  exactly when a dependency-output flag leaves no trace in it.
* `Scheduler.RoutingBalances`, `Scheduler.RoutingSpreadIff`, `Scheduler.RoutingSplitsEvenly`: greedy
  routing balances, for any order of the worker map, exactly as long as no 32-bit counter turns over;
  `Scheduler.LeastIsCheapest`: which worker is preferred.
* `CompileCache.InterruptSafeIff`: exactly what a key may already hold for a `Store` that stops
  anywhere never to serve a wrong result; `CompileCache.StoredWholeIff`: exactly when a `Store` that
  finishes serves the whole result.

Conditions found on the way, each proved exact or shown necessary:

* A directory listing of 4 GiB or more makes the `uint32` byte count wrap, so that its inode can pass
  the 16-bit size check with a wrong size (`squashfs/directory.go`, `squashfs/inode.go`;
  `InodeEncoders.DirSizeExact`). `ImageExact.ImageReadsBack` has it as the only exception, and
  `LongListing.LongRunCloses` is a run that closes without error and does not read back.
* The unstable sorts on the client and the worker may order blobs of one path differently; with two
  different digests to one path the digest check depends on it (`Manifest.DigestSettledIff`).
* A passthrough value spelled `-MF`, `-MT` or `-MQ` (as in `-Xlinker -MF`) makes the cache key's
  filter swallow the entry behind it, so a dependency flag inserted there shows in the key
  (`CacheKey.DepFlagsInvisibleIff`, `CacheKey.DanglingHappens`).
* The scheduler's optimistic load counter is an `int32`. The total is as promised if and only if no
  counter turns over (`Scheduler.RoutingBalances`), the spread if and only if none does or only one
  worker is free (`Scheduler.RoutingSpreadIff`); `Scheduler.LimitTears` is a state where one does.
* `Store` never deletes a blob, so what the key already holds matters. An interrupted `Store` is safe
  if and only if every store of the chain holds no readable side outputs but the result's own, no
  output where the result has none, and, behind an exit code that parses, code 0 and what the result
  says (`CompileCache.InterruptSafeIff`); over any other key some interruption shows
  (`CompileCache.UnsafeShows`, `CompileCache.MixedEntry`). A finished `Store` serves the whole result
  if and only if no readable side outputs were left where the result has none
  (`CompileCache.StoredWholeIff`, `CompileCache.StaleExtrasShow`).

What stands in for code that cannot be seen: the compressor is any pair of functions of which one
undoes the other; the hash, the token check, the JWT check and the store's `Has` answer are arbitrary
functions; time and random tokens are parameters; a Go map is ranged over in any order.

## Model

| member | source | states |
|---|---|---|
| ImageExact.ImageReadsBack | squashfs/writer.go:434-573 | for every run that Close turns into an image below 2^64 bytes, looking up any path from the superblock down returns exactly what was created there (and nothing elsewhere) if and only if every listing's true length plus three fits 32 bits |
| ImageExact.SmallDirsSuffice | squashfs/writer.go:735-780 | a condition checkable from the tree alone is enough for the image to read back: twenty bytes an entry plus its name, summed over each directory, stay below 4 GiB |
| ImageExact.LongSpoils | squashfs/directory.go:46-110 | if some listing is longer than that, there is a path at which the reader does not find what was created |
| ImageExact.EmptyRunCloses | squashfs/writer.go:434-573 | Close succeeds on the run without calls whenever the fixed time can be written in 32 bits |
| LongListing.LongRunCloses | squashfs/directory.go:78-107 | one file and 16265983 hard links to it with names of 256 bytes are such a run: Close reports success, the root listing exceeds its 32-bit count, and the image does not read back |
| LongListing.UniformLength | squashfs/directory.go:60-107 | a listing of full headers over rows that share an inode takes 67596 bytes a header |
| Closable.ClosesIff | squashfs/writer.go:434-573 | where the tree alone tells of every listing whether it stays below 64 KiB or surely exceeds it, Close succeeds if and only if every parent is a directory, at most 65535 owners occur, every name has at most 256 bytes, every entry fits its record and every listing stays below |
| Closable.CloseNeeds | squashfs/writer.go:434-573 | whatever the size of the tree, Close succeeds only if the tree has those properties and the 32-bit count of every listing, wrapped and three added, fits 16 bits |
| Closable.LargeDirFails | squashfs/inode.go:119-136 | a directory whose names take more than 64 KiB even with the fewest headers, but less than 4 GiB with the most, makes Close fail |
| Closable.ListingBetween | squashfs/directory.go:46-110 | a listing takes at least eight bytes an entry, the names and a header to every 256 entries, and at most a header to every entry |
| Closable.IdsFitIff | squashfs/writer.go:684-713 | the owners are interned without error if and only if at most 65535 different ones occur, the root's zero included |
| ImageTree.TreeRecovered | squashfs/writer.go:165-294 | at every created path the image shows the kind, file bytes, link target, device numbers, low twelve mode bits, owner, group and time asked for; through a hard link, those of its target |
| ImageTree.NothingElse | squashfs/writer.go:583-625 | at every other non-empty sequence of names the reader finds nothing |
| ImageTree.FolderLists | squashfs/writer.go:735-780 | every directory, the root included, lists exactly the names of the entries created in it, strictly increasing |
| ImageTree.InodesShared | squashfs/writer.go:631-648 | with fewer than 2^32 inodes, two paths show the same inode number exactly if they name the same entry, directly or as a hard link to it |
| ImageTree.RootShown | squashfs/writer.go:583-594 | the root shows number 1, itself as parent, mode 0755 and owner 0:0 |
| ImageTree.FolderNeighbours | squashfs/writer.go:655-680 | a directory shows two plus its subdirectories as link count and the number of the directory it is in as parent |
| NumberOrder.NumbersAscend | squashfs/writer.go:631-648 | inode numbers grow depth first in the order of names: of two entries, the one with the smaller number is above the other or goes through the smaller name where their paths part |
| CallHistory.CallShown | squashfs/writer.go:165-294 | stated on the list of calls alone: a call takes effect if its path is canonical and not made before, a symlink has a target and a hard link leads to a file made before; every such call shows in the image with the kind, owner, time and data asked for, a file with the bytes written to it up to the next Create call |
| CallHistory.LinkShown | squashfs/writer.go:221-248 | a hard link that took effect shows the file that an earlier call made |
| CallHistory.OnlyCallsShow | squashfs/writer.go:434-573 | at names that no call made there is nothing |
| CallHistory.NodesAre | squashfs/writer.go:165-294 | the entries are, path by path, what the calls that took effect asked for, and no others |
| CallHistory.ContentsAre | squashfs/writer.go:364-389 | the accepted bytes of every file are what was written to it, joined, from its creation to the next Create call, refused or not |
| CallHistory.RefusedFor | squashfs/writer.go:300-314 | exactly when each error is reported, in terms of the path and the entries already there |
| CallHistory.TimeShown | squashfs/writer.go:859-887 | the superblock has the fixed time, or else the latest of the entries' own times, zero if there is none |
| ImageMain.ImageGeometry | squashfs/writer.go:434-573 | every image is a multiple of 4096 bytes, zero behind bytes_used, its tables in order between the data and bytes_used, its counts those of the tree, its time the image's, its two block size fields in agreement |
| ImageMain.FinalBase | squashfs/writer.go:434-446 | whatever the calls were, the entry table Close starts from has distinct canonical paths, links that lead to files, and no user-made root |
| ImageMain.DataStays | squashfs/writer.go:535-573 | back-patching and padding leave every byte of file data where it was |
| ImageMain.FinishAt | squashfs/writer.go:551-573 | behind the first 96 bytes the finished image is the assembled body byte for byte |
| WriterProofs.RunInv | squashfs/writer.go:165-188 | after any interleaving of accepted and refused calls and of writes to live and stale writers, each file's blocks lie in one contiguous region, regions follow each other in creation order without overlap, and hold exactly the bytes accepted for the file |
| WriterProofs.StepInv | squashfs/writer.go:300-328 | one call keeps that invariant and follows the caller's view of the tree |
| WriterProofs.FeedLayout | squashfs/writer.go:364-421 | the write loop emits exactly the blocks that cutting the whole content at the block size gives, however the content is split over calls |
| StreamWriter.Writer.constructor | squashfs/writer.go:135-161 | a new writer has a zeroed superblock, no entries and no live file |
| StreamWriter.Writer.CreateFile | squashfs/writer.go:165-188 | seals the file before it, stales its writer even when refused, and refuses for exactly the listed reasons in their order; the new writer is the live one; accepted if and only if the writer is open, the path leads from the root through proper names, and it is not taken |
| StreamWriter.Writer.CreatePlain | squashfs/writer.go:191-294 | the same for directories, devices, FIFOs and sockets; accepted under the same condition |
| StreamWriter.Writer.CreateSymlink | squashfs/writer.go:201-216 | the same for symlinks, the empty target refused last; accepted under the same condition with a non-empty target |
| StreamWriter.Writer.CreateHardlink | squashfs/writer.go:221-248 | the same for hard links, both paths checked first and the target required to be an existing regular file; accepted if and only if the writer is open, the link path is canonical and not taken, and the target is an existing regular file |
| StreamWriter.Writer.BeginEntry | squashfs/writer.go:300-314 | a refused call still seals and stales the live file; an open writer accepts exactly the canonical paths that are not taken |
| StreamWriter.Writer.FlushCurFile | squashfs/writer.go:318-328 | the tail is emitted if there is one, no file is live afterwards, and the old writer is stale |
| StreamWriter.Writer.Close | squashfs/writer.go:434-573 | succeeds exactly when the calls determine an image and leaves precisely that image; otherwise the output stays as it was; a second Close fails and changes nothing |
| StreamWriter.FileWriter.Write | squashfs/writer.go:364-389 | a stale or closed writer accepts nothing and changes nothing; a live one accepts all bytes and leaves the state that one more write in the call history leads to |
| StreamWriter.FileWriter.EmitBlock | squashfs/writer.go:394-421 | appends the packed block, or the raw one when packing saves nothing, and notes its size word |
| StreamWriter.FileWriter.FlushTail | squashfs/writer.go:425-430 | emits what is buffered, nothing when nothing is |
| Paths.SplitFollows | squashfs/writer.go:332-348 | an accepted path is the one reached from the root by following its own parts, each a valid name |
| Paths.ValidPathParts | squashfs/writer.go:332-348 | an accepted path is its parent joined with its base name, and is longer than its parent |
| Paths.ValidPathIff | squashfs/writer.go:332-348 | a path is accepted if and only if it leads from the root through one or more proper names: non-empty, without slash, neither "." nor ".." |
| Paths.NamesAccepted | squashfs/writer.go:332-348 | every non-empty list of proper names makes an accepted path, which splits into just these names |
| Paths.SplitJoin | squashfs/writer.go:342-346 | splitting what was joined with slashes gives the parts back |
| Paths.JoinSplit | squashfs/writer.go:342-346 | joining what was split gives the string back |
| FileData.ReadFileBack | squashfs/writer.go:394-421 | blocks packed one by one, wherever they lie, read back through their size words as the whole file |
| FileData.BlockCount | squashfs/inode.go:152-175 | a file of n bytes has ceil(n / block size) blocks, so the inode encoder's count check never fires |
| Chunking.AppendFacts | squashfs/metadata.go:90-108 | writing across block borders loses, reorders and repeats nothing, and closes only full blocks |
| Chunking.AppendTwice | squashfs/metadata.go:90-108 | two writes leave what one write of both would |
| Chunking.HoldsStable | squashfs/metadata.go:80-85 | what a reference points at stays the same through every later write and seal |
| Metadata.RefSurvives | squashfs/metadata.go:80-208 | a reference taken before any non-empty write, with arbitrary writes and seals before and after, leads the reader back to exactly the bytes written, across block borders, once the stream is emitted anywhere in a file |
| Metadata.BlocksSmall | squashfs/metadata.go:113-140 | no emitted block is empty or larger than 8 KiB |
| Metadata.ReadBlocksBack | squashfs/metadata.go:183-208 | reading at a block's byte offset returns the stream from that block on |
| Metadata.OffsetStable | squashfs/metadata.go:170-176 | the byte offset of a block is settled once the blocks before it are closed |
| Metadata.EncodeRefSplits | squashfs/metadata.go:215-217 | the two halves of an encoded reference come apart again |
| Metadata.PacksWhenSmaller | squashfs/metadata.go:113-140 | the packed form of a block is used exactly when it is smaller |
| Metadata.MetaWriter.Ref | squashfs/metadata.go:80-85 | the position of the next byte; its in-block offset is always below 8192 |
| Metadata.MetaWriter.Write | squashfs/metadata.go:90-108 | the write loop does to the stream what appending the payload does |
| Metadata.MetaWriter.SealCurrent | squashfs/metadata.go:113-140 | closes the block under construction, packed or raw, and never an empty one |
| Metadata.MetaWriter.Flush | squashfs/metadata.go:145-147 | the stream afterwards is the sealed one |
| Metadata.MetaWriter.BlockByteOffset | squashfs/metadata.go:170-176 | the loop computes where the block lies in the emitted table |
| Metadata.MetaWriter.EmitTo | squashfs/metadata.go:183-208 | appends the on-disk form of all closed blocks and counts its bytes; the size check cannot fire |
| Directory.ListingBack | squashfs/directory.go:46-110 | decoding a listing returns its entries in order, with inode numbers, positions, types and names, through the signed 16-bit deltas |
| Directory.RunMaximal | squashfs/directory.go:60-76 | a header covers 1 to 256 entries that share its inode block with deltas in int16 range, and stops only at an entry that may not join or at 256 |
| Directory.DeltaSurvives | squashfs/directory.go:95-96 | a delta in int16 range survives the uint16 and back |
| Directory.CutShowsLess | squashfs/directory.go:46-110 | a listing read with too small a size never shows all its entries |
| Directory.FindRun | squashfs/directory.go:62-76 | the probe finds exactly the maximal run |
| Directory.WriteDirListing | squashfs/directory.go:46-110 | fails exactly on an empty or overlong name; otherwise appends the listing of the name-sorted entries at the returned reference and counts its bytes modulo 2^32 |
| Sorting.SortSorts | squashfs/directory.go:47-50 | the result is in order |
| Sorting.StrictUnique | squashfs/directory.go:47-50 | only one strictly sorted arrangement of a set of names exists, so the sort algorithm does not matter |
| Sorting.LessIff | squashfs/writer.go:612-617 | the order used everywhere is that of the first unit in which two strings differ, a prefix before its extensions |
| IdTable.ReadIdBack | squashfs/idtable.go:61-119 | the ID with index i is found through lookup entry i / 2048 at byte 4 * (i mod 2048) of the block it points to |
| IdTable.StreamShape | squashfs/idtable.go:61-103 | there is exactly one metadata block per 2048 IDs, so one per lookup entry |
| IdTable.IndexStable | squashfs/idtable.go:36-47 | an index keeps its meaning however many IDs follow |
| IdTable.InternAllFacts | squashfs/idtable.go:36-47 | interning a list keeps IDs distinct, keeps old positions, contains every ID and stays within 65535 indices |
| IdTable.IdTable.Intern | squashfs/idtable.go:36-47 | returns the ID's position in the list after interning; refuses exactly when a new ID meets a full table, changing nothing |
| IdTable.IdTable.WriteData | squashfs/idtable.go:61-103 | appends the packed IDs and returns the file offset of each block |
| IdTable.WriteLookup | squashfs/idtable.go:109-119 | appends the offsets as 64-bit words |
| Inodes.ParseBack | squashfs/inode.go:99-243 | every record whose fields fit is read back field by field, whatever its kind, from nothing but its prefixes |
| InodeEncoders.WriteCommonHeader | squashfs/inode.go:99-106 | fills the first sixteen bytes of any record and changes no byte behind them |
| InodeEncoders.EncodeBasicDir | squashfs/inode.go:119-136 | the record, refused exactly when the 32-bit sum of size and three exceeds 16 bits |
| InodeEncoders.EncodeBasicFile | squashfs/inode.go:152-175 | the record, refused exactly when start or size exceed 32 bits or the block count disagrees |
| InodeEncoders.EncodeBasicSymlink | squashfs/inode.go:186-198 | the record, refused exactly for an overlong target |
| InodeEncoders.EncodeBasicDevice | squashfs/inode.go:209-224 | the record, refused exactly for numbers that do not fit |
| InodeEncoders.EncodeBasicIPC | squashfs/inode.go:234-243 | the record |
| InodeEncoders.EncodeDevice | squashfs/inode.go:88-96 | accepted exactly with a 12-bit major and an 8-bit minor, which then come apart again |
| InodeEncoders.DirSizeExact | squashfs/inode.go:119-136 | the encoder makes a record with the true listing length plus three exactly when that is at most 65535, and one with a wrong size exactly when the length wraps to something that small |
| Bytes.ByteOrder | squashfs/superblock.go:36-40 | the words of the image are little-endian, those of the cache and the manifest big-endian |
| Superblock.DecodeBack | squashfs/superblock.go:35-57 | a superblock whose fields fit is read back from the front of any file it starts |
| Superblock.EncodeInto | squashfs/superblock.go:35-57 | the field-by-field filling of the buffer produces that encoding |
| Superblock.BlockLogAgrees | squashfs/superblock.go:62-64 | for every allowed block size, two to the block log is the block size |
| TreeProofs.Numbering | squashfs/writer.go:631-648 | the depth-first walk meets every entry but the hard links exactly once, the root first, so the numbers are exactly 1 to the inode count |
| TreeProofs.AllUnderRoot | squashfs/writer.go:583-625 | once every parent exists and is a directory, every entry lies below the root |
| TreeProofs.SiblingsApart | squashfs/writer.go:583-625 | no entry is reachable through two siblings |
| TreeProofs.KidsSorted | squashfs/writer.go:610-625 | a directory's children come out in strictly increasing order of name, none twice |
| ClosePasses.EntryTable.BuildTree | squashfs/writer.go:583-625 | succeeds exactly when every parent exists and is a directory; then every directory holds exactly its own children, sorted |
| ClosePasses.EntryTable.AssignInodeNumbers | squashfs/writer.go:631-648 | the recursive walk with its uint32 counter leaves every entry its position in the depth-first order and its directory's number as parent |
| ClosePasses.EntryTable.ComputeLinkCounts | squashfs/writer.go:655-680 | for any order of the map, every link count that is ever written out is two plus the subdirectories for a directory and one otherwise |
| ClosePasses.EntryTable.InternIDs | squashfs/writer.go:684-713 | succeeds exactly when the IDs fit the table, and leaves each entry the indices of its own IDs |
| ClosePasses.EntryTable.TotalInodeCount | squashfs/writer.go:845-853 | for any order of the map, the number of entries that are not hard links, modulo 2^32 |
| ClosePasses.EntryTable.ImageTime | squashfs/writer.go:859-887 | for any order of the map, the fixed time, or else the largest entry time, brought into 32 bits |
| ClosePasses.MaximumIs | squashfs/writer.go:859-887 | that largest time is at least every entry's and is one of them or zero |
| TablePasses.WriteOneInode | squashfs/writer.go:790-822 | appends the record the entry's fields determine and notes its place; fails, changing nothing, exactly where an encoder refuses |
| TablePasses.WriteLeafInodes | squashfs/writer.go:718-729 | the pass over the creation order writes every entry but directories and hard links |
| TablePasses.ResolveHardlinks | squashfs/writer.go:463-473 | every hard link carries its target's number and place |
| TablePasses.WalkDirs | squashfs/writer.go:735-780 | the recursion writes subdirectories before their parents, each row quoting an inode already written |
| TablePasses.WriteDirHere | squashfs/writer.go:748-780 | one directory's listing and then its inode, pointing at that listing |
| TableProofs.AllWritten | squashfs/writer.go:718-780 | after both passes every inode and every listing is at the place recorded for it, and stays there |
| RootPlace.RootLow | squashfs/writer.go:560-563 | the root's inode block always fits the 48 bits of its reference, because every other record is quoted by a row that was checked against 32 |
| CloseImage.BuildImage | squashfs/writer.go:434-573 | all passes together produce the image the entry table determines, or fail exactly when it determines none, for any order of the maps |
| CloseImage.RangeOver | squashfs/writer.go:655-666 | a ranged map gives every entry once, in some order |
| CloseImage.Prepare | squashfs/writer.go:443-451 | numbers, link counts and owner indices are settled before any table is written |
| CloseImage.FillTables | squashfs/writer.go:453-487 | both passes over the two streams leave the tables the entry table determines |
| CloseImage.EmitRegions | squashfs/writer.go:504-535 | the tables follow the data in file order, at the offsets the superblock then quotes |
| CloseImage.Patch | squashfs/writer.go:551-572 | writing the superblock over the placeholder and padding gives the finished image |
| CasTransfer.Worker.UploadBlobs | internal/worker/cas.go:258-410 | store and reply are those of: cut the frames at the headers, join the chunks, hash; a bad header still settles the blob before it, any other stop loses the blob in progress |
| CasTransfer.Receiver.Commit | internal/worker/cas.go:272-311 | settles the blob in progress: stored under the hash recomputed from its bytes if it stayed within the cap and the hash is the announced one, its digest rejected otherwise |
| CasTransfer.Receiver.TakeHeader | internal/worker/cas.go:328-376 | the checks of a header in their order, after the blob before it is settled |
| CasTransfer.Receiver.TakeData | internal/worker/cas.go:378-398 | the buffer never exceeds the size cap; a blob that would is given up and its later chunks are drained; data before any header is refused |
| CasTransfer.UploadConserves | internal/worker/cas.go:258-410 | on a stream that ends by itself, stored plus rejected equals the number of headers, the bytes counted are those stored, and the rejected digests are exactly the refused ones in order |
| CasTransfer.UploadStores | internal/worker/cas.go:272-311 | a key is in the store afterwards if and only if it was before or some blob announced under it is within the cap and hashes to it |
| CasTransfer.UploadSound | internal/worker/cas.go:289-311 | however a stream goes, every key in the store stays the hash of its value |
| CasTransfer.UploadOneTenant | internal/worker/cas.go:365-375 | one stream changes nothing outside the tenant of its first header |
| CasStream.UploadExact | internal/worker/cas.go:258-410 | however the stream goes: a key is stored afterwards if and only if it was before, or some blob announced under it was settled, is within 256 MiB and hashes to it; settled means that all frames up to its header keep to the protocol and another header, good or bad, or the orderly end follows its data |
| CasStream.UploadValue | internal/worker/cas.go:258-410 | what is stored under a key is the data of such a blob, or what was there |
| CasStream.LegalIff | internal/worker/cas.go:258-410 | a stream is legal if and only if every header has a 32-byte digest, a tenant its token is accepted for and the tenant of all headers before it, all data comes behind a header, and nothing else is sent |
| CasStream.GroupAt | internal/worker/cas.go:258-410 | the blobs of a stream are its headers in order, each with the data up to the next, joined |
| CasTransfer.CutIs | internal/worker/cas.go:313-409 | the frames taken are the longest legal prefix: none of them breaks the protocol, the next one does |
| CasTransfer.Worker.FindMissingBlobs | internal/worker/cas.go:159-224 | answers exactly the absent ones of the queries before the first bad one, in order, and fails with that one's error |
| CasTransfer.AbsentIs | internal/worker/cas.go:159-224 | a query is answered if and only if it was asked and its blob is absent |
| CasStream.ProbeStops | internal/worker/cas.go:159-224 | the probe is answered up to the first query without digest or tenant, with a token that is not accepted, or with another tenant than the first |
| CasStream.ProbeAnswers | internal/worker/cas.go:159-224 | the answer is the queries of absent blobs, in order, each as often as asked |
| Manifest.VerifyManifestDigest | internal/worker/cas.go:118-138 | accepts exactly when all digests have 32 bytes and the digest of the re-sorted blobs is the one sent |
| Manifest.AggregateManifestDigest | internal/compiler/manifest.go:498-511 | hashes the folded paths and digests, each delimited, in the order given |
| Manifest.AsciiLower | internal/compiler/manifest.go:521-541 | adds 32 to the bytes 65 to 90 and leaves every other byte as it is |
| Manifest.EncodingInjective | internal/compiler/manifest.go:498-511 | two lists with the same encoding name the same folded paths and the same digests in the same order |
| Manifest.SortsAgree | internal/compiler/manifest.go:287-297 | with one digest to a path, every sort of every arrangement of the blobs is hashed from the same bytes |
| Manifest.DigestSettledIff | internal/compiler/manifest.go:287-297 | two sorts of one list can feed the hash different bytes if and only if some path comes with two digests |
| Manifest.BuildManifest | internal/compiler/manifest.go:199-298 | fails exactly without inputs, without an answer of the preprocessor, or when some file cannot be read or named; otherwise every distinct input and dependency appears once, sorted by name, with its hash and size; whether it fails or not, the dependencies are exactly what the scans of the assembler inputs make of the preprocessor's answer |
| Manifest.MakeManifest | internal/compiler/manifest.go:234-297 | the part from the dependency list on: which files are named, and when it fails |
| Manifest.SortedCatalogue | internal/compiler/manifest.go:232-298 | the manifest names the file behind every path, with name, hash and size, as many blobs as there are distinct paths, nothing else, sorted by name |
| Manifest.CollectPaths | internal/compiler/manifest.go:234-252 | the two loops keep the first occurrence of each path |
| Manifest.ManifestVerifies | internal/worker/cas.go:118-138 | a manifest's blobs, sent in any order and re-sorted in any way the worker's sort may choose, give the manifest's digest |
| Staging.MaterializeBlobs | internal/worker/staging.go:99-125 | the directory afterwards holds the relative blobs in order, later ones over earlier ones, or staging fails at the first blob that is unfit, missing, or whose place is a directory or lies below a file |
| Staging.StageSucceedsIff | internal/worker/staging.go:99-125 | staging succeeds if and only if every relative blob has a fit path that is not the directory itself and is in the store, and no blob's file is a directory on the way to another's |
| Staging.StageHolds | internal/worker/staging.go:99-125 | a relative blob that no later one overwrites is staged with its stored content |
| Staging.StageKeys | internal/worker/staging.go:99-125 | the places taken are exactly those of the relative blobs |
| Staging.StaysInside | internal/worker/staging.go:133-158 | an accepted path has no empty or climbing step once cleaned |
| Staging.AcceptedIff | internal/worker/staging.go:133-158 | a path is accepted if and only if it is relative, not empty, free of NUL and backslash, and has no climbing step once cleaned |
| Staging.AcceptedInside | internal/worker/staging.go:133-158 | a path is accepted if and only if it is not empty, does not start with a slash, has no NUL or backslash, and no prefix of its parts has more ".." than names |
| Staging.UpCancels | internal/worker/staging.go:145-151 | a name and the ".." behind it cancel, wherever they stand |
| Staging.DotVanishes | internal/worker/staging.go:145-151 | empty parts and "." may be removed anywhere |
| Staging.NamesStay | internal/worker/staging.go:116 | a list of proper names is its own cleaning |
| Staging.CleanHeight | internal/worker/staging.go:145-151 | while no prefix climbs out, cleaning leaves as many names as there are names less ".."; otherwise it starts with ".." |
| CasDance.DanceSucceeds | internal/daemon/dispatch/dispatch.go:396-470 | after a successful exchange, provided nothing is evicted, staging the same blobs in any order succeeds if and only if their relative paths can be laid out as a tree; then each staged file that no later blob overwrites hashes to the digest its entry names |
| CasDance.FilesArrive | internal/daemon/dispatch/dispatch.go:316-370 | for a manifest of project files and toolchain headers, of which only the project files are probed and sent: the exchange succeeds, the worker's digest check passes, and every project file is staged with the bytes it has on the client, as long as the store holds no other bytes of the same hash |
| CasDance.CasUpload | internal/daemon/dispatch/dispatch.go:397-472 | the client's probe and upload leave the store and the verdict of the exchange; a refused probe or a rejected digest is a failure, nothing to send or nothing missing a success |
| CasDance.ExchangeOkIff | internal/daemon/dispatch/dispatch.go:397-472 | the exchange succeeds if and only if there is nothing to send, or the token is good for the tenant and every project blob is in the store or is read as content within the size cap that still has its digest |
| CasDance.SendsWhatIsAbsent | internal/daemon/dispatch/dispatch.go:452-462 | the upload opens exactly one blob for each answer of the probe, in order |
| CasDance.RelativesAre | internal/daemon/dispatch/dispatch.go:511-523 | the blobs that take part are exactly the project-relative ones |
| CasDance.RelativesKeep | internal/daemon/dispatch/dispatch.go:515-523 | in order, each as often as named |
| CasDance.BlobTaken | internal/daemon/dispatch/dispatch.go:477-509 | a header followed by the file in pieces, however it is read, is taken by the worker as one blob with the file's bytes |
| AssemblyClosure.ScanAssemblyClosure | internal/compiler/manifest.go:386-446 | terminates on cyclic includes and lists, once each, exactly the targets of directives in files reachable from the root and the preprocessor's dependencies |
| AssemblyClosure.CollectDeps | internal/compiler/manifest.go:204-232 | over all inputs: the preprocessor's answer first, then exactly what scanning the assembler inputs one after the other adds, each scan starting from all that is there; so everything assembling any of them needs, and nothing that no chain of directives mentions |
| AssemblyClosure.ScansAgree | internal/compiler/manifest.go:204-232 | the files such scans collect are determined by the inputs, the answer and the directives |
| AssemblyClosure.ScansGather | internal/compiler/manifest.go:386-446 | successive scans leave no assembler input without what it needs, and add only what some chain of directives from the answer or the inputs mentions |
| AssemblyClosure.ClosedHasAll | internal/compiler/manifest.go:386-446 | a set that holds the seeds and is closed under .include holds everything reachable |
| AssemblyClosure.DirectivesAre | internal/compiler/manifest.go:386-446 | a file leads on to what its .include directives resolve to, and needs these and what its .incbin directives resolve to |
| FlagTable.SortTable | internal/compiler/grammar.go:104-109 | the copy, sorted in place, is the stable length-descending arrangement of the grammar |
| FlagTable.SortKeeps | internal/compiler/grammar.go:104-109 | it holds the same entries, no shorter name before a longer one |
| FlagTable.SortStable | internal/compiler/grammar.go:104-109 | entries of one length keep the order of the grammar |
| FlagTable.SpecIsLongest | internal/compiler/parser.go:111-143 | the first match in that table is the longest of all matches, and no match means there is none |
| FlagTable.TableIsGood | internal/compiler/grammar.go:48-109 | every length-descending order of the grammar's entries has what the parsing proofs use |
| FlagTable.SortedTableIsGood | internal/compiler/grammar.go:99-109 | the table the package init makes is such an order |
| Argv.MatchGNUFlag | internal/compiler/parser.go:111-143 | the scan returns the entry, value and number of arguments of the token at the index |
| Argv.Invocation.ApplyFlag | internal/compiler/parser.go:145-198 | the switch changes exactly the field its category names |
| Argv.Invocation.ParseGNU | internal/compiler/parser.go:22-63 | the index-driven loop leaves what parsing token by token gives, default mode and output included |
| ArgvMeaning.SettingSpelled | internal/compiler/parser.go:145-198 | behind complete flags, the last -O, -g, -std=, -x or -o as spelled is the value of its own field |
| ArgvMeaning.ListSpelled | internal/compiler/parser.go:145-198 | -I, -isystem, -iquote, -U, -l, -L, -W, -f and -m, joined or separate, put their value into the list they are named for, in its place |
| ArgvMeaning.FlagListed | internal/compiler/parser.go:145-198 | and into no other list; tool flags go to the passthrough list as they are written |
| ArgvMeaning.ModeSpelled | internal/compiler/parser.go:145-160 | the last of -c, -E, -S, -M and -MM selects the mode |
| ArgvMeaning.MacroSpelled | internal/compiler/parser.go:164-166 | the last -D about a macro, joined or separate, with a value or without, decides its value |
| ArgvMeaning.ParsedLists | internal/compiler/parser.go:22-63 | for every argument list: each list field holds the values of its own flags, in order; inputs and unknown flags likewise |
| ArgvMeaning.ParsedSettings | internal/compiler/parser.go:22-63 | for every argument list: each setting is the value of the last of its own flags |
| ArgvMeaning.ParsedMacros | internal/compiler/parser.go:22-63 | for every argument list: a macro is defined exactly if some -D is about it, with the value of the last |
| ArgvMeaning.ParsedMode | internal/compiler/parser.go:22-63 | for every argument list: the mode is the one the last mode flag names, linking if there is none |
| Spelling.SpelledToken | internal/compiler/parser.go:111-143 | every spelling of a flag of the grammar, joined or separate, is read as that flag with that value, but for -Wl, -Wa, and -Wp, which are flags of their own |
| Spelling.FlagToken | internal/compiler/parser.go:111-143 | conversely a flag read is spelled there, or stands at the end without its value |
| Spelling.TokenKinds | internal/compiler/parser.go:22-63 | exactly which arguments end the flags, are inputs, or are unknown |
| Spelling.AllKnown | internal/compiler/grammar.go:48-97 | the entries of the grammar are determined by their names; only -W shares its letter with flags that take a joined value |
| Argv.DefaultOutputIs | internal/compiler/parser.go:84-106 | a compile of dir/stem.ext without -o leaves stem.o, whichever separator the directory ends in |
| Argv.DefaultOutputPlain | internal/compiler/parser.go:84-106 | a file without an extension, or with only a leading dot, keeps its whole name before .o |
| Argv.DefaultOutputElse | internal/compiler/parser.go:84-106 | without -c, with an output, with several inputs or standard input, nothing is inferred |
| Argv.Boundary | internal/compiler/parser.go:22-63 | a prefix made of complete flags parses the same whatever follows |
| Argv.KeepForPreprocessed | internal/compiler/rewrite.go:437-469 | keeps exactly the code generation and warning flags short of the -Werror forms, and unknown flags, in order |
| Argv.KeepMirrors | internal/compiler/rewrite.go:437-469 | parsing the kept arguments gives the code generation settings of the original, its warnings minus the -Werror forms, and touches nothing else |
| Argv.KeepIdempotent | internal/compiler/rewrite.go:437-469 | keeping twice drops nothing more |
| Argv.RewriteReparses | internal/compiler/rewrite.go:377-403 | the rewritten command line parses as a compile of the one given source to the same output, with the same standard, optimization, debug, feature, machine and unknown settings, the warnings minus the -Werror forms, and no includes, macros, libraries or passthrough |
| CacheKey.CacheKeyFlags | internal/compiler/cache_key.go:32-90 | the buffer holds the key, whatever order the map gives its names in |
| CacheKey.FilterIrrelevant | internal/compiler/cache_key.go:96-116 | the loop with its skip flag drops exactly the dependency flags and what each value-taking one swallows |
| CacheKey.FilterKeeps | internal/compiler/cache_key.go:96-116 | by position: an entry is dropped if and only if it is one of -MD, -MMD, -MF, -MT, -MQ, /showIncludes or the value swallowed by the entry before it; the rest stay in order |
| CacheKey.FilterSame | internal/compiler/cache_key.go:96-116 | without these six the filter changes nothing |
| CacheKey.KeyInjective | internal/compiler/cache_key.go:32-90 | two command lines without NUL or empty list entries have the same key if and only if they agree on every keyed field, macros as a map, and on the filtered passthrough list |
| CacheKey.PassthroughKeyed | internal/compiler/cache_key.go:32-90 | two clean command lines without these six that differ in what is passed through have different keys |
| CacheKey.KeyDetermined | internal/compiler/cache_key.go:32-90 | any two command lines that agree on these have the same key |
| CacheKey.DefinesReorder | internal/compiler/parser.go:145-198 | a -D flag may move past any complete flags that do not set the same macro without changing the parse |
| CacheKey.DepFlagsInvisible | internal/compiler/cache_key.go:96-116 | -MD, -MMD, -MF v, -MT v or -MQ v inserted at a flag boundary changes nothing keyed, unless the filter is about to swallow there |
| CacheKey.DepFlagsInvisibleIff | internal/compiler/cache_key.go:96-116 | whatever follows, that insertion is invisible if and only if the filter is not about to swallow there, or the flag's own value is spelled like another such flag |
| CacheKey.QuietArgs | internal/compiler/cache_key.go:96-116 | if no passthrough value is spelled like -MF, -MT or -MQ, the filter is never about to swallow at a flag boundary |
| CacheKey.DanglingHappens | internal/compiler/cache_key.go:96-116 | after -Xlinker -MF an inserted -MD does change what is keyed |
| Scheduler.Scheduler.AuthenticateTenant | internal/scheduler/scheduler.go:121-151 | binds the drawn token to the tenant exactly when its JWT verifies, and changes nothing else |
| Scheduler.Scheduler.AuthenticateWorker | internal/scheduler/scheduler.go:153-173 | opens an unbound worker session exactly for the worker token |
| Scheduler.Scheduler.Route | internal/scheduler/scheduler.go:185-228 | refused exactly unless the session is bound to the tenant, in which case its token was issued to that tenant on a verified login; otherwise picks a worker of least score among those with free vCPUs, or fails exactly when there is none, and bumps only its load |
| Scheduler.Scheduler.PickWorker | internal/scheduler/scheduler.go:317-367 | for any order of the map, a least-scored free worker, and none only when there is none |
| Scheduler.Scheduler.ScoreOf | internal/scheduler/scheduler.go:328-349 | load, plus the cold-pull penalty unless the image is there, minus the bonus if sticky and a VM of the tenant runs it |
| Scheduler.LeastIsCheapest | internal/scheduler/scheduler.go:317-367 | the picked worker is free and no free worker has a smaller sum of load, 100 without the image, and minus 2 for a VM of the tenant's that runs it when sticky |
| Scheduler.ColdNeedsLoad | internal/scheduler/scheduler.go:301-305 | a worker without the image is picked beside a free one with it only if that has at least 98 more load, 100 without stickiness |
| Scheduler.StickyPreferred | internal/scheduler/scheduler.go:307-315 | at equal load and image, a free worker that runs the image for the tenant is not passed over for one that does not |
| Scheduler.Scheduler.RegisterWorker | internal/scheduler/scheduler.go:369-384 | binds the session and stores the state together, keeping the invariant that bound sessions have one |
| Scheduler.Scheduler.Heartbeat | internal/scheduler/scheduler.go:386-424 | in every reachable state the not-registered branch is not taken; an accepted beat updates exactly its worker |
| Scheduler.Scheduler.ReapStaleWorkers | internal/scheduler/scheduler.go:474-509 | removes exactly the workers last heard before the cutoff and exactly the sessions bound to them |
| Scheduler.RoutingBalances | internal/scheduler/scheduler.go:317-367 | any run of routes for one tenant and image raises the total load by the number of routes less 2^32 for every counter turned over, so by exactly their number if and only if none is; then the scores of the free workers stay within a window as wide as the initial one, or one |
| Scheduler.RoutingSpreadIff | internal/scheduler/scheduler.go:317-367 | the scores of the free workers stay as close as they were, or within one, after every route of a run if and only if no counter is turned over or only one worker is free |
| Scheduler.WrapsIff | internal/scheduler/scheduler.go:356-366 | no counter is turned over if and only if each has room for the routes that go to its own worker |
| Scheduler.RoomEnough | internal/scheduler/scheduler.go:317-367 | room for all the routes on every free worker is enough, however full the others are |
| Scheduler.LimitTears | internal/scheduler/scheduler.go:356-366 | two free workers at the limit: one route, and their scores are 2^32 - 1 apart |
| Scheduler.RoutingSplitsEvenly | internal/scheduler/scheduler.go:317-367 | equally warm, free and idle workers each end with the quotient of routes by workers, rounded down or up, as long as that share is a 32-bit number |
| Scheduler.RouteCounts | internal/scheduler/scheduler.go:356-366 | one route raises the total load by one, or lowers it by 2^32 - 1 if the picked worker's counter is at its limit |
| LoadBalance.SpreadKept | internal/scheduler/scheduler.go:317-367 | any run of picks of a least value keeps all values in a window of the initial width, or one |
| LoadBalance.EvenSplit | internal/scheduler/scheduler.go:317-367 | from equal values, n picks among k leave each at n / k more, rounded down or up |
| Extras.EncodeExtras | internal/cache/compile.go:345-371 | for any order of the map, the encoding with its paths sorted |
| Extras.DecodeExtras | internal/cache/compile.go:376-404 | the moving offset never leaves the data on any byte string, and the result is that of reading entry by entry |
| Extras.ExtrasBack | internal/cache/compile.go:345-404 | decoding inverts encoding for every map within the length widths |
| Extras.PrefixRefused | internal/cache/compile.go:376-404 | every strict prefix of an encoding is refused |
| Extras.DecodesIff | internal/cache/compile.go:376-404 | any bytes decode to a map if and only if they are a count, that many entries in whatever order and anything behind them, the last entry for a path counting |
| CompileCache.CompileCache.Store | internal/cache/compile.go:167-253 | puts, store by store, output, stdout, stderr, exit code, metadata and extras in that order; nothing for failed compiles, an empty chain or a missing tenant |
| CompileCache.CompileCache.LookupEntry | internal/cache/compile.go:117-145 | the entry of the first store that has the key and loads, a miss if none does, an error without a tenant |
| CompileCache.LoadEntry | internal/cache/compile.go:274-331 | a miss exactly when the exit code is absent or does not parse or a wanted output is absent; undecodable extras are left out |
| CompileCache.FirstWins | internal/cache/compile.go:117-145 | of several stores that have the key and load, the first of the chain is returned |
| CompileCache.NoneAnswers | internal/cache/compile.go:117-145 | a miss means that no store has the key and loads |
| CompileCache.ExitBack | internal/cache/compile.go:282-285 | every 64-bit exit code in decimal, signed or not, is read as that number |
| CompileCache.ExitRefused | internal/cache/compile.go:282-285 | anything without a digit or with another character is refused |
| CompileCache.InterruptSafeIff | internal/cache/compile.go:167-253 | wherever in the chain Store stops, every store shows a miss or the result's own data, if and only if beforehand every store held no readable side outputs but the result's, no output where the result has none, and behind a parsable exit code only 0 with the result's stdout, stderr and output |
| CompileCache.StoppedStoreIsSafe | internal/cache/compile.go:117-145 | over such a key, after any number of the puts, a Lookup through the whole chain is a miss or returns exit code 0, the stored stdout and stderr, the stored output when one is named, and the extras or none |
| CompileCache.UnsafeShows | internal/cache/compile.go:117-145 | over any other key some interruption makes some Lookup return a result that is not the stored one |
| CompileCache.RetryIsSafe | internal/cache/compile.go:167-253 | what an interrupted Store leaves is again a safe key for a Store of the same result |
| CompileCache.MixedEntry | internal/cache/compile.go:225-251 | over a complete entry of another result the first put already makes the entry show the new output with the old stdout |
| CompileCache.StoredWholeIff | internal/cache/compile.go:274-331 | after a whole Store every entry of the chain has the exit code, stdout, stderr and output of the result, whatever the key held before, and the same side outputs if and only if no readable ones were left where the result has none |
| CompileCache.CompleteStoreHits | internal/cache/compile.go:117-145 | after a whole Store without such leftovers, Lookup returns the whole result as soon as any store of the chain answers for the key |
| CompileCache.StaleExtrasShow | internal/cache/compile.go:274-331 | with such leftovers in a store, Lookup can return the result with the side outputs of the earlier one |
| CompileCache.MetadataStored | internal/cache/compile.go:225-251 | a whole Store leaves the metadata in every store of the chain, and the side outputs when there are any |
| CompileCache.OthersUntouched | internal/cache/compile.go:167-253 | no put touches another tenant or key |

## Left out

- I/O errors of the squashfs output and compressor errors other than "incompressible": the writer is modelled on writes that succeed.
- Compression, hashing, JWT and signature internals: arbitrary functions; the compressor is assumed to decode what it encodes and never to produce empty output.
- Concurrency inside one scheduler call: each call is one atomic step, so races between a route and a heartbeat on one worker are not modelled.
- Floating-point scores: scores are integers, as all the terms the source adds are.
- `scanAssemblyIncludes`, the regular expressions that find directives in a file, and path resolution: a tree of already extracted directives is given.
- `normalizeManifestPath`, `rejectUNC` and project-root search: naming a file is an arbitrary partial function of it.
- MSVC grammar and rewriting, response files, and the path-prefix rewriting of arguments.
- Store backends, container pool, the dispatcher beyond its upload, VM runtimes, image catalogue, CLI, metrics, logging, generated protocol code.
- Manifest.BuildManifest: the preprocessor's own answer and the directives found in each file are given, not computed.
- ImageExact.ImageReadsBack: images of 2^64 bytes or more are not covered, because the offsets of the format are 64-bit words.
- ImageTree.InodesShared: only below 2^32 inodes, because the source's counter and the format's field have 32 bits.
- ImageExact.SmallDirsSuffice: sufficient only; the exact condition is the one in ImageExact.ImageReadsBack.
- InodeEncoders.EncodeBasicFile: a regular file's link count is not part of its record, and the counts the source leaves for files depend on map order; they are left free.
- Scheduler.RoutingSplitsEvenly: for shares below 2^31, the range of the counters.
- Manifest.ManifestVerifies: for clients whose naming gives no two different files one name; Manifest.DigestSettledIff is the exact condition on the list.
- CasDance.DanceSucceeds: for a store from which nothing is evicted between probe and staging.
- CasDance.FilesArrive: for project files within the size cap that do not change between hashing and upload.
- Closable.ClosesIff: says nothing about trees with a listing that the grouping into headers, hence the compression of the inode table, can put on either side of 64 KiB or 4 GiB, or with tables that may reach 4 GiB.
- Closable.LargeDirFails: not for directories that may reach 4 GiB, where the count wraps and Close can succeed (LongListing.LongRunCloses).
- Argv.RewriteReparses: for a source path that is not itself spelled like a flag, as its callers build it.
- Extras.ExtrasBack: for at most 2^32 - 1 entries and path lengths below 2^32, the widths of the format.
- CompileCache.CompileCache.Store: the choice between the result's own output bytes and the file on disk is made before the call; a put either happens or the call has stopped.
