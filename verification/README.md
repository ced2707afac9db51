# Verified model of the CYFS file system core

This project models three cores of the repository and the pieces attached to them, and proves what
they are for. `dafny verify dfyconfig.toml` checks all of it.

**The copy-on-write chunked file.** A base list of chunks is overlaid by dirty chunks that a writer
seeks in, overwrites and appends to, closes to a diff file with an index, reopens, and compiles to a
plain chunk list. The specification is `FileImage.Cursor`: flat bytes and a position. Every writer,
saved state, merged table and reader has an abstraction to it (`Img`, `Abs`), and every operation is
proved to do to it what the flat file does. `Settled` is the invariant between calls (what is not dirty
is an unchanged base chunk), `Extended` the one in the middle of a write.
How an append is cut into chunks is told in sizes alone in `AppendSizes`.
Files: `Bytes`, `ChunkStore`, `ChunkSizes`, `AppendSizes`, `FileImage`, `SortedKeys`, `DiffWriter`, `FileBuffer`,
`ContentLayouts`, `DiffSizing`, `ChunkReading`, `FixedSizes`, `ReadBack`.

**The path-resolution cache.** `Resolver` is the walk dentry by dentry, with the base lookup and the
bounded expansion of links, and no cache. `CacheState` has the cache as a value with its bookkeeping
invariant `WellFormed`; `CacheCoherence` says when its contents are true of a tree (`Faithful`) and when
the edge index knows every edge an entry depends on (`Covered`), and which operation keeps which.
`PathCache` is the cache updated in place, and `CachedResolve` the resolver that uses it, with whole runs
of resolves and commits. One operation can break coverage: an eviction drops the index row of its path
even when a deeper entry needs it. `EvictedCovered` gives the exact condition for the index and
`StaleCache` the one for what callers see, with a run that gets there from an empty cache; the ghost field
`orphaned` records such an eviction. `CacheRecency` reads the LRU map as a list.

**The namespace and its leases.** `NamespaceState` and `Namespace` have the inode and dentry tables with
back-pointers and directory revisions, each savepoint body one atomic step; `NamespaceLaws` has what
their operations promise a caller, no lost updates first. `Move` plans a move from reads between which
other operations may fall and applies it in one transaction. `EnsureDir` is the client's way to a
directory, with exactly when it can be opened or made. `MoveTree` and `ClientMove` show that client
moves, made one after the other, keep the inodes a tree, and exactly when one goes through;
`InterleavedMoves` says exactly when one that others interleave with does, and gives two that do not.
`TouchedEdges` ties the namespace to the cache: the edges a transaction reports are all that changed;
`SystemRun` runs namespace operations, client moves and cached resolves together. `Lease` has the fenced
write leases, the reclaim of expired ones, the compare-and-set of state columns it interferes with, and
the opening of files for writing: after a reclaim out of Working the last write time stays set, so no
compare-and-set succeeds on that row until a truncating open of a file with a base object writes it
back. `ObjStats` has the reference counts.

**Attached pieces.** `Listing` and `NameOrder` (merged listing and paging), `InodeTables` (the path and
inode maps under recursive removal and rename).

Modelling choices. An identifier of a chunk names its content, so distinct contents have distinct
identifiers, and only mix identifiers embed a length. A stored chunk
is the content of its identifier; base chunks are assumed stored where a writer copies from them, and a
reader fails at a chunk that is missing. Recorded sizes may be wrong; what is said about bytes then names
that they are right as its condition. Paths are lists of components, or text where the code compares text.
Hash-map iteration order is left open (`:|`), so what is proved holds for every order. Clocks are
parameters. Where a method and a function have the same job, the method is the code and the function its
specification.

## Model

| member | source | states |
|---|---|---|
| `ChunkSizes.ResolveChunkSizes` | `src/named_store/src/diff_chunk_list.rs:1545-1584` | given sizes, the local store, the identifiers, then a fixed size, in this order: exactly when each way succeeds, and what it gives |
| `ChunkSizes.EnsureLocal` | `src/named_store/src/diff_chunk_list.rs:1637-1668` | succeeds exactly when every chunk is in the store, of the expected size if one is expected, and gives the stored sizes |
| `ChunkSizes.ResolveFixedChunkSizes` | `src/named_store/src/chunk_list_reader.rs:286-333` | succeeds exactly when n = 0, or f > 0 and either no total is recorded or (n-1)*f < total; all chunks but the last then have size f, the last too without a total, and with one the sizes add up to it |
| `ChunkSizes.FixedTotal` | `src/named_store/src/chunk_list_reader.rs:286-333` | the sizes add up to the total |
| `ChunkSizes.FoundSizesAreTrue` | `src/named_store/src/diff_chunk_list.rs:1545-1668` | sizes from the store or from identifiers are those of the chunks |
| `ChunkSizes.FixedSizesAreTrue` | `src/named_store/src/diff_chunk_list.rs:1597-1635` | sizes from a fixed size are those of the chunks if and only if every chunk but the last has that size and the recorded total is that of the bytes |
| `DiffWriter.DiffChunkListWriter.Create` | `src/named_store/src/diff_chunk_list.rs:658-691` | opens exactly when the base sizes can be found; if they are those of the chunks the writer stands for the bytes of its base list, at position 0 |
| `DiffWriter.DiffChunkListWriter.Write` | `src/named_store/src/diff_chunk_list.rs:852-890` | writing buf at any position p of any valid writer leaves old[..p] + buf + old[p+|buf|..], position p+|buf|, all of buf taken, whatever the chunk sizes, fixed size or merge flag; the loop ends and no zero fill stays; and the chunk sizes are those of one append of the bytes added at the end, SizesAfter |
| `DiffWriter.DiffChunkListWriter.WriteSome` | `src/named_store/src/diff_chunk_list.rs:858-887` | one turn of the loop writes a non-empty prefix of the buffer and keeps the file settled |
| `DiffWriter.DiffChunkListWriter.ExtendForAppend` | `src/named_store/src/diff_chunk_list.rs:1221-1250` | grows the last chunk or adds one by between 1 and remaining zero bytes at the end of the flat file, touching nothing before it, and by just as many as RoomFor says; asked for nothing, does nothing |
| `AppendSizes.AddsPieces` | `src/named_store/src/diff_chunk_list.rs:1197-1250` | unless the last chunk is filled up first, an append of g bytes leaves every chunk size as it is and adds chunks of the preferred size, the last one perhaps shorter, g bytes in all |
| `AppendSizes.FillsLast` | `src/named_store/src/diff_chunk_list.rs:1234-1243` | with the merge flag, a last chunk shorter than the preferred size is filled up to it first, and the rest is added in such chunks |
| `AppendSizes.FixedPreferred` | `src/named_store/src/diff_chunk_list.rs:1197-1202` | a fixed size above 0 is the preferred one, however much is left to write |
| `AppendSizes.LargestPreferred` | `src/named_store/src/diff_chunk_list.rs:1204-1212` | without one, the largest base chunk before the last decides |
| `AppendSizes.LastPreferred` | `src/named_store/src/diff_chunk_list.rs:1214-1218` | and if those are all empty, the last one |
| `AppendSizes.WholePiece` | `src/named_store/src/diff_chunk_list.rs:1214-1250` | with nothing to go by, what a write adds is one chunk |
| `AppendSizes.EvenStays` | `src/named_store/src/diff_chunk_list.rs:1221-1250` | with the merge flag a file cut evenly by the preferred size stays so |
| `AppendSizes.EvenIsFixed` | `src/named_store/src/chunk_list_reader.rs:286-333` | sizes cut evenly by f are exactly what a fixed size f and their total give back |
| `AppendSizes.EvenListIsFound` | `src/named_store/src/diff_chunk_list.rs:1545-1584` | so a list of such chunks with the right total is sized rightly by the fixed size alone |
| `DiffWriter.DiffChunkListWriter.LocatePosition` | `src/named_store/src/diff_chunk_list.rs:1252-1266` | finds the chunk and offset of a position exactly for the positions inside the file, zero-length chunks included |
| `DiffWriter.DiffChunkListWriter.EnsureDirtyChunk` | `src/named_store/src/diff_chunk_list.rs:1268-1309` | refused exactly for an index past the chunks, changing nothing; else the chunk becomes dirty without changing a byte of the file, also the one just grown or added |
| `DiffWriter.DiffChunkListWriter.Seek` | `src/named_store/src/diff_chunk_list.rs:834-850` | seeking moves the cursor or is refused exactly as on a flat file |
| `DiffWriter.DiffChunkListWriter.PersistDirtyChunks` | `src/named_store/src/diff_chunk_list.rs:1130-1195` | the diff file, indices and sizes are exactly the dirty chunks in index order; in named mode each is stored under its own identifier |
| `DiffWriter.DiffChunkListWriter.Close` | `src/named_store/src/diff_chunk_list.rs:904-934` | the saved state records the writer completely and the store is untouched |
| `DiffWriter.DiffChunkListWriter.OpenFromState` | `src/named_store/src/diff_chunk_list.rs:717-824` | accepts exactly the states that pass its checks and rebuilds dirty map, sizes, position and total from them; the position is then inside the file and every dirty chunk as long as its size says |
| `DiffWriter.DiffChunkListWriter.Reopen` | `src/named_store/src/diff_chunk_list.rs:717-934` | closing any valid writer and opening it again never fails and gives the same writer in every field |
| `DiffWriter.DiffChunkListWriter.Finalize` | `src/named_store/src/diff_chunk_list.rs:936-963` | never fails on a valid writer; the chunk list spells out the writer's bytes, chunk by chunk of the merged sizes, and in named mode every listed chunk is stored and fetching them gives the file |
| `DiffWriter.SavedReopens` | `src/named_store/src/diff_chunk_list.rs:720-824` | a state saved by close passes every check of open_from_state and stands for the same image |
| `DiffWriter.SavedIsRestored` | `src/named_store/src/diff_chunk_list.rs:770-805` | cutting the diff file by the saved sizes gives back exactly the dirty map |
| `DiffWriter.RestoreDirty` | `src/named_store/src/diff_chunk_list.rs:770-805` | succeeds exactly when indices are distinct, in range and sized like the merged chunks, and then every segment comes back under its index, none in place of another |
| `DiffWriter.RebuildMergedState` | `src/named_store/src/diff_chunk_list.rs:965-1103` | accepted exactly for a state that can be opened and has an identifier for every chunk; gives the merged list and the dirty segments with their offsets |
| `DiffWriter.RebuiltIsFinalized` | `src/named_store/src/diff_chunk_list.rs:965-1103` | closing any valid file and rebuilding its list gives the very list finalizing it gives |
| `DiffWriter.AllStored` | `src/named_store/src/diff_chunk_list.rs:1105-1195` | once the dirty chunks are put, every chunk of the merged list is in a store that held the base chunks |
| `FileImage.MergedIdsKeepBytes` | `src/named_store/src/diff_chunk_list.rs:1105-1128` | compiling a settled file to identifiers keeps its bytes and sizes |
| `FileImage.MaterializeChunk` | `src/named_store/src/diff_chunk_list.rs:1268-1309` | materializing a clean chunk, or the last one after an extension, changes no byte and settles the file |
| `FileImage.SegmentsTile` | `src/named_store/src/diff_chunk_list.rs:1025-1080` | the segments of a diff file tile it |
| `FileImage.GrowLast` | `src/named_store/src/diff_chunk_list.rs:1221-1240` | extending the last chunk is appending zeros to the flat file |
| `FileImage.CopyStep` | `src/named_store/src/diff_chunk_list.rs:870-887` | copying into a dirty chunk, in place or over exactly the fill just added, is a write on the flat file |
| `FileImage.SeekMeans` | `src/named_store/src/diff_chunk_list.rs:834-850` | where a seek from the start, the position and the end leads, when it is refused, and that writing at the end appends |
| `FileBuffer.Flush` | `src/cyfs/src/named_file_mgr.rs:96-134` | what flush stores in the record holds everything the writer needs to come back |
| `FileBuffer.OpenFileWriter` | `src/cyfs/src/named_file_mgr.rs:1362-1482` | opening a record that was flushed gives the flushed file with its position; one never written gives the base list, always if its identifiers embed lengths, else sized by a fixed size; exactly when each succeeds |
| `FileBuffer.RunWriter` | `src/cyfs/src/named_file_mgr.rs:1277-1323` | for every run of writes and seeks with closes, reopens and flush-and-open cycles inserted anywhere, the file is the one the run without them produces, cut into chunks as its writes alone cut it |
| `FileBuffer.ReopensDoNotMatter` | `src/cyfs/src/named_file_mgr.rs:1277-1323` | dropping reopens from a run does not change the flat result |
| `FileBuffer.RunStaysEven` | `src/named_store/src/diff_chunk_list.rs:1197-1250` | with the merge flag, a file cut evenly by the preferred size, such as a new one of a fixed size, is so after any run |
| `ContentLayouts.CalculateContentLayout` | `src/fs_buffer/src/local_filebuffer.rs:350-406` | splits a file into default-size chunks, one shorter last chunk allowed, whose segments tile the file and whose list spells it out; the single chunk of a small file has a mix identifier too, the default chunk type (src/ndn-lib/src/chunk/chunk.rs line 242) |
| `ContentLayouts.OverlayContentLayout` | `src/fs_buffer/src/local_filebuffer.rs:504-546` | fails exactly for an empty list or mismatched sizes; otherwise segment i is chunk i at the sum of the sizes before it, and with the true sizes the segments spell out the list |
| `ContentLayouts.PutSegments` | `src/fs_buffer/src/local_filebuffer.rs:659-734` | after the loop the store holds exactly the old chunks and those of the segments, each under the identifier of its bytes |
| `ContentLayouts.BuildOverlay` | `src/fs_buffer/src/local_filebuffer.rs:596-641` | from any record: succeeds exactly when the filled-in state is accepted and has a non-empty merged list, and lays that list out |
| `ContentLayouts.FinalizeOverlay` | `src/fs_buffer/src/local_filebuffer.rs:596-734` | for every record that stands for a file, the layout is that of the file's bytes, and with the base stored, fetching it gives the file; a refusal stores nothing |
| `ContentLayouts.FinalizePlain` | `src/fs_buffer/src/local_filebuffer.rs:350-406` | without a base list the layout of the diff file is a stored, readable copy of the writer's bytes |
| `ContentLayouts.FlushedStateIsComplete` | `src/fs_buffer/src/local_filebuffer.rs:454-502` | a flushed state needs no filling in |
| `ContentLayouts.FlushedStandsFor` | `src/fs_buffer/src/local_filebuffer.rs:454-502` | a flushed record stands for the writer's file |
| `ContentLayouts.UntouchedStandsFor` | `src/fs_buffer/src/local_filebuffer.rs:430-502` | a record never written stands for its base list |
| `ContentLayouts.DiffFileIsFile` | `src/fs_buffer/src/local_filebuffer.rs:350-406` | with no base list the diff file is the file |
| `DiffSizing.ResolveDiffChunkSizes` | `src/named_store/src/diff_chunk_list.rs:1486-1543` | sizes come from identifiers, else from the caller, else by inference; exactly when each way succeeds and what it gives |
| `DiffSizing.ReadBackIsFlat` | `src/named_store/src/diff_chunk_list.rs:1428-1543` | reading back with any sizes that are right before the tail gives the writer's bytes, even when chunk boundaries in the tail differ |
| `DiffSizing.InferredIsRight` | `src/named_store/src/diff_chunk_list.rs:1414-1543` | inferred sizes accepted by the file length check are right before the tail |
| `DiffSizing.InferredAccepted` | `src/named_store/src/diff_chunk_list.rs:1414-1426` | the length check accepts inferred sizes exactly when every chunk but the last has a known size and the known sizes fit in the diff file |
| `DiffSizing.ExpectedFits` | `src/named_store/src/diff_chunk_list.rs:1486-1543` | sizes can be inferred whenever the chunks before the last are as long as in the base list or, added, of the fixed size |
| `DiffSizing.OverlayLays` | `src/named_store/src/diff_chunk_list.rs:1428-1470` | gapless ascending entries laid over the base give entry k at index k and the base chunk elsewhere |
| `ChunkReading.Validate` | `src/named_store/src/diff_chunk_list.rs:26-46` | accepts a diff exactly when identifiers and indices pair up and no index repeats |
| `ChunkReading.BuildDiffEntries` | `src/named_store/src/diff_chunk_list.rs:1379-1412` | entries take the indices, sizes and running file offsets |
| `ChunkReading.BuildMergedChunks` | `src/named_store/src/diff_chunk_list.rs:1428-1484` | the merged table is the base with the entries laid over it, and refers to no other chunks than the base list's; it fails exactly on a gap |
| `ChunkReading.BuildTable` | `src/named_store/src/diff_chunk_list.rs:152-218` | the table of a diff left by finalize spells out the writer's bytes with sizes from identifiers, given or inferred |
| `ChunkReading.OpenDiffReader` | `src/named_store/src/diff_chunk_list.rs:152-218` | on such a diff a reader opens exactly when the diff sizes can be found and the seek is in range, stands for the writer's bytes at the sought position, and will ask the store for chunks of the base list only |
| `ChunkReading.FindChunk` | `src/named_store/src/diff_chunk_list.rs:366-387` | binary search finds the chunk that contains a position |
| `ChunkReading.InsideUnique` | `src/named_store/src/diff_chunk_list.rs:366-387` | at most one chunk contains a position, also with empty chunks present |
| `ChunkReading.DiffChunkListReader.CalcSeekTarget` | `src/named_store/src/diff_chunk_list.rs:336-351` | accepts and computes targets as a cursor on the flat file does |
| `ChunkReading.DiffChunkListReader.LocatePosition` | `src/named_store/src/diff_chunk_list.rs:366-387` | the one non-empty chunk containing the position, or the end |
| `ChunkReading.DiffChunkListReader.ApplySeekTarget` | `src/named_store/src/diff_chunk_list.rs:353-364` | moves the cursor and drops the open chunk reader |
| `ChunkReading.DiffChunkListReader.StartSeek` | `src/named_store/src/diff_chunk_list.rs:535-540` | remembers the target, or refuses it, as the flat cursor would |
| `ChunkReading.DiffChunkListReader.PollComplete` | `src/named_store/src/diff_chunk_list.rs:542-555` | moves to the remembered target |
| `ChunkReading.DiffChunkListReader.LoadNextChunk` | `src/named_store/src/diff_chunk_list.rs:389-450` | opens the chunk at the next index from base or diff file, at the right offset, exactly when it is stored |
| `ChunkReading.DiffChunkListReader.AdvanceAfterChunkEof` | `src/named_store/src/diff_chunk_list.rs:452-459` | goes on to the following chunk without moving the position |
| `ChunkReading.DiffChunkListReader.Read` | `src/named_store/src/diff_chunk_list.rs:462-533` | returns exactly the next bytes of the file and advances by them; empty only at the end or for capacity 0; refused while a seek is pending, and at a chunk that is not stored, without moving |
| `ChunkReading.OpenChunkListReader` | `src/named_store/src/chunk_list_reader.rs:89-133` | opens exactly when the sizes can be found and the seek is within their total; with the true sizes the reader stands for the list's bytes at the sought position |
| `ReadBack.RunReader` | `src/named_store/src/diff_chunk_list.rs:462-555` | any sequence of seeks, completions and reads on a reader whose chunks are stored does what it does on a flat file, step by step and answer by answer |
| `ReadBack.ReadsAreConsecutive` | `src/named_store/src/diff_chunk_list.rs:462-533` | what a run of reads delivers is one gapless piece of the file |
| `ReadBack.ReadToEnd` | `src/named_store/src/diff_chunk_list.rs:462-533` | reading until nothing comes gives all the bytes from the position on, however many each read delivers |
| `ReadBack.FinalizeThenRead` | `src/named_store/src/diff_chunk_list.rs:152-218` | finalizing any file and reading its diff back, with the right base sizes, gives its bytes from any seek position: always with identifiers or given sizes, and with inferred sizes exactly when they fit |
| `ReadBack.WriteThenInfer` | `src/named_store/src/diff_chunk_list.rs:1486-1543` | a new file of a fixed size with the merge flag, after any run of writes, seeks and reopens, is read back by inference from that size alone, from any seek position |
| `ReadBack.CloseThenRead` | `src/named_store/src/diff_chunk_list.rs:222-258` | closing any file and reading it back from the saved state gives its bytes |
| `ReadBack.FinalizeThenReadList` | `src/named_store/src/chunk_list_reader.rs:89-133` | the finished plain list, with the dirty chunks stored, reads back as the file |
| `FixedSizes.FixedLocate` | `src/named_store/src/chunk_list_reader.rs:173-195` | binary search on fixed sizes is division: index min(p/f, n-1), offset p - index*f |
| `Resolver.WalkFrom` | `src/fs_meta/src/fs_meta_service.rs:2388-2505` | a walk stops at an object or link only at a component of the path, and ends only in an inode that exists |
| `Resolver.ResolveIsRight` | `src/fs_meta/src/fs_meta_service.rs:2297-2518` | whenever the first components lead to a directory inode: an object or an unexpanded link next is answered with all of the rest as the path inside it, a link within the budget is followed, a tombstone or absent name is nothing, and a last inode is itself |
| `Resolver.ResolveInside` | `src/fs_meta/src/fs_meta_service.rs:2474-2477` | the path inside an object or link is what follows it: resolving path + more answers the same item with more appended inside; an inode leaves no inner path |
| `Resolver.NormalizeSymlinkTarget` | `src/fs_meta/src/fs_meta_service.rs:4689-4712` | the loop computes the normalized component list |
| `Resolver.NormalizedIsPlain` | `src/fs_meta/src/fs_meta_service.rs:4689-4712` | no dot segment, empty name or slash of a link target survives normalization |
| `Resolver.NormalizeJoined` | `src/fs_meta/src/fs_meta_service.rs:4681-4712` | following a link to the text of a path is following the path, wherever the link is |
| `Resolver.NormalizePart` | `src/fs_meta/src/fs_meta_service.rs:4689-4712` | a relative name is taken in the directory of the link; a dot-dot takes away the last component of that directory and stops at the root; a dot and the empty text change nothing |
| `Resolver.NormalizeSteps` | `src/fs_meta/src/fs_meta_service.rs:4694-4705` | the parts of a target between slashes are applied one after the other, from the root if the target is absolute |
| `Resolver.BudgetMonotone` | `src/fs_meta/src/fs_meta_service.rs:2314-2517` | an answer that is not an unexpanded link is the answer for every larger symlink budget (and resolution terminates on the budget) |
| `CacheState.CountIsEntries` | `src/fs_meta/src/path_resolve_cache.rs:96-115` | entry_count, the LRU map and the valued nodes have the same size |
| `CacheState.PrefixesAnswered` | `src/fs_meta/src/path_resolve_cache.rs:171-196` | every cached id vector answers every prefix of its path with a vector long enough |
| `CacheState.RecomputedSummary` | `src/fs_meta/src/path_resolve_cache.rs:78-94` | summaries recomputed bottom-up along a path are right there if they are right elsewhere |
| `CacheState.RecomputedWitness` | `src/fs_meta/src/path_resolve_cache.rs:78-94` | a recomputed summary is the vector of some live entry below its node |
| `CacheState.StoredIdsWellFormed` | `src/fs_meta/src/path_resolve_cache.rs:351-438` | storing ids keeps trie, LRU pairing, vector lengths, summaries and count |
| `CacheState.StoredTerminalWellFormed` | `src/fs_meta/src/path_resolve_cache.rs:440-513` | storing a terminal keeps all of them |
| `CacheState.EvictedWellFormed` | `src/fs_meta/src/path_resolve_cache.rs:281-349` | an eviction keeps all of them and lowers the count by one |
| `CacheState.InvalidatedWellFormed` | `src/fs_meta/src/path_resolve_cache.rs:516-590` | an invalidation keeps all of them and never raises the count |
| `CacheState.RefreshedWellFormed` | `src/fs_meta/src/path_resolve_cache.rs:141-156` | a refresh keeps all of them |
| `CacheState.StoredCount` | `src/fs_meta/src/path_resolve_cache.rs:385-412` | a store adds at most one entry, and none when it overwrites |
| `CacheRecency.EvictedOrder` | `src/fs_meta/src/path_resolve_cache.rs:281-299` | eviction removes the least recently stored or refreshed entry |
| `CacheRecency.RefreshedOrder` | `src/fs_meta/src/path_resolve_cache.rs:141-156` | a refreshed entry becomes the most recent one and the order of the others stays |
| `CacheRecency.StoredOrder` | `src/fs_meta/src/path_resolve_cache.rs:351-438` | a stored entry becomes the most recent one and replaces the entries at prefixes of its path |
| `CacheRecency.InvalidatedOrder` | `src/fs_meta/src/path_resolve_cache.rs:516-590` | an invalidation drops the subtree from the order and nothing else |
| `CacheCoherence.ChainUnique` | `src/fs_meta/src/fs_meta_service.rs:544-548` | with one incoming dentry per inode and none for the root, two paths to one inode are one path |
| `CacheCoherence.WalkFromChain` | `src/fs_meta/src/fs_meta_service.rs:2364-2400` | a walk may start at the end of any chain along the path |
| `CacheCoherence.SummaryIsChain` | `src/fs_meta/src/path_resolve_cache.rs:171-196` | in a faithful cache every answered vector is the chain of current dentries |
| `CacheCoherence.TerminalStopsWalk` | `src/fs_meta/src/path_resolve_cache.rs:198-216` | a cached terminal is where the walk along any longer path stops |
| `CacheCoherence.StoredIdsFaithful` | `src/fs_meta/src/path_resolve_cache.rs:351-438` | storing a chain read from the tree keeps everything cached true |
| `CacheCoherence.StoredTerminalFaithful` | `src/fs_meta/src/path_resolve_cache.rs:440-513` | storing the terminal a chain ends in keeps everything cached true |
| `CacheCoherence.PutEdgesIndexed` | `src/fs_meta/src/path_resolve_cache.rs:428-437` | entering one path's edges leaves every other path's index rows right |
| `CacheCoherence.StoredCovered` | `src/fs_meta/src/path_resolve_cache.rs:428-437` | after a store the index has every edge any entry depends on |
| `CacheCoherence.EvictedCovered` | `src/fs_meta/src/path_resolve_cache.rs:301-349` | after an eviction the index still covers the cache if and only if the evicted path is the root or has no cached strict descendant |
| `CacheCoherence.RemovedFaithful` | `src/fs_meta/src/path_resolve_cache.rs:301-349` | what an eviction leaves is still true |
| `CacheCoherence.InvalidatedFaithful` | `src/fs_meta/src/path_resolve_cache.rs:516-574` | what an invalidation leaves is still true |
| `CacheCoherence.InvalidatedCovered` | `src/fs_meta/src/path_resolve_cache.rs:516-574` | and still covered by the index |
| `CacheCoherence.InvalidatedUnused` | `src/fs_meta/src/path_resolve_cache.rs:592-600` | while the index covers the cache, invalidating an edge drops every entry that depends on it |
| `CacheCoherence.ChangeKeepsAgreement` | `src/fs_meta/src/fs_meta_service.rs:3523-3537` | entries that depend on no changed edge stay true and covered in the new tree |
| `PathCache.PathResolveCache.RecomputeDeepest` | `src/fs_meta/src/path_resolve_cache.rs:78-94` | the loop over the children picks a longest vector among the node's own and theirs |
| `PathCache.PathResolveCache.RecomputeUp` | `src/fs_meta/src/path_resolve_cache.rs:343-348` | every node on the path has its best summary afterwards; nothing else changes |
| `PathCache.PathResolveCache.RefreshLru` | `src/fs_meta/src/path_resolve_cache.rs:141-156` | the entry moves to a new, largest id |
| `PathCache.PathResolveCache.EvictLru` | `src/fs_meta/src/path_resolve_cache.rs:281-299` | the entry with the least id goes, with the index row of exactly its path; orphaned records whether a deeper entry still needed that row |
| `PathCache.PathResolveCache.ClearShallowValues` | `src/fs_meta/src/path_resolve_cache.rs:263-278` | exactly the entries strictly above the path are dropped from nodes, LRU map and count |
| `PathCache.PathResolveCache.PutIds` | `src/fs_meta/src/path_resolve_cache.rs:351-438` | a vector of the wrong length changes nothing; otherwise room is made and the path stored, every prefix of it is answered from then on and the path by the ids stored; the count stays within max(1, max_entries) |
| `PathCache.PathResolveCache.PutTerminal` | `src/fs_meta/src/path_resolve_cache.rs:440-513` | the same for terminals, and the path has the terminal |
| `PathCache.PathResolveCache.InvalidatePrefix` | `src/fs_meta/src/path_resolve_cache.rs:516-574` | the subtree, its LRU entries and its index rows are gone and the summaries above are recomputed |
| `PathCache.PathResolveCache.InvalidateByEdge` | `src/fs_meta/src/path_resolve_cache.rs:592-600` | invalidates the prefix indexed under the edge, and does nothing for an unknown edge |
| `PathCache.PathResolveCache.GetIds` | `src/fs_meta/src/path_resolve_cache.rs:171-196` | answers the first |path|+1 ids of the node's vector if it is long enough, and refreshes the entry |
| `PathCache.PathResolveCache.GetTerminal` | `src/fs_meta/src/path_resolve_cache.rs:198-216` | finds the terminal at the shortest prefix that has one, and refreshes it |
| `PathCache.PathResolveCache.GetLongestPrefixIds` | `src/fs_meta/src/path_resolve_cache.rs:222-261` | answers the longest prefix of the path that can be answered |
| `CachedResolve.WalkCached` | `src/fs_meta/src/fs_meta_service.rs:2312-2505` | one round of the resolver on a cache that agrees with the tree ends where the dentry-by-dentry walk ends, and the cache still agrees |
| `CachedResolve.ResolvePath` | `src/fs_meta/src/fs_meta_service.rs:2297-2518` | on a cache that agrees with the tree the cached resolver answers what the cacheless walk answers, and what is right at every directory on the way (RightAnswer), for every path and symlink budget; without expanding links it refreshes the terminal it hits, leaves a fully answered path alone, and else stores exactly the outcome of its walk |
| `CachedResolve.Commit` | `src/fs_meta/src/fs_meta_service.rs:3523-3537` | invalidating every touched edge makes the cache agree with the new tree |
| `CachedResolve.Run` | `src/fs_meta/src/fs_meta_service.rs:2297-2518` | over any run of resolves and commits from an empty cache, all answers are those of the cacheless walk on the tree of that moment, unless an eviction orphaned an index row |
| `StaleCache.SafeEvictionExactly` | `src/fs_meta/src/path_resolve_cache.rs:301-349` | an eviction is safe if and only if, whatever one edge is changed to, invalidating it afterwards leaves only true contents |
| `StaleCache.UnsafeIsStale` | `src/fs_meta/src/path_resolve_cache.rs:329-342` | after every unsafe eviction there is an accepted tombstone whose invalidation finds no row, while an entry stays cached at a path where a cacheless resolve finds nothing |
| `StaleCache.StaleAnswer` | `src/fs_meta/src/fs_meta_service.rs:2297-2518` | it happens for a cache of any size from two entries on (the service has 10000), filled by resolves of a proper tree: after a commit and its invalidation the resolver answers a link where a cacheless resolve finds nothing |
| `SystemRun.RunStep` | `src/fs_meta/src/fs_meta_service.rs:3523-3537` | an operation, a client move or a resolve keeps back-pointers and the root, and if the cache agreed with the tables it agrees with the new ones |
| `SystemRun.Run` | `src/fs_meta/src/fs_meta_service.rs:3523-3537` | over any run of namespace operations, client moves and cached resolves every answer is the cacheless one on the tables of that moment, unless an eviction orphaned an index row or a directory ceased to be one; from a tree, all states are trees if and only if no bare operation points a dentry at a directory at or above its own |
| `NamespaceState.AfterKeepsBackPointers` | `src/fs_meta/src/fs_meta_service.rs:2977-3425` | create, delete, replace and the other writes keep: ref_by of an inode is d exactly when dentry d targets it |
| `NamespaceState.BackPointersAlways` | `src/fs_meta/src/fs_meta_service.rs:2977-3425` | so over any run |
| `NamespaceState.OneDentry` | `src/fs_meta/src/fs_meta_service.rs:546-548` | no inode has two dentries |
| `NamespaceState.AcceptedIsFree` | `src/fs_meta/src/fs_meta_service.rs:3036-3067` | an accepted change points only to an inode nobody refers to |
| `NamespaceState.RevCountsChanges` | `src/fs_meta/src/fs_meta_service.rs:3069-3077` | a refused operation changes nothing; the parent revision rises by one per effective change or bump and not otherwise; rows change only in the named directory |
| `NamespaceState.EqualRevsEqualRows` | `src/fs_meta/src/fs_meta_service.rs:1926-1945` | a directory whose revision is the same after a run has the same rows, whatever ran |
| `NamespaceLaws.AcceptedSawCurrent` | `src/fs_meta/src/fs_meta_service.rs:3004-3006` | an accepted create, delete or replace named the current revision of its directory and found what it says under the name |
| `NamespaceLaws.NoLostUpdate` | `src/fs_meta/src/fs_meta_service.rs:3004-3006` | of two such operations that name one revision of one directory, once the first changed a row the second is refused as out of date and changes nothing, whatever ran between |
| `NamespaceLaws.AcceptedLeaves` | `src/fs_meta/src/fs_meta_service.rs:3069-3077` | an accepted create or replace leaves its target under its name, a delete nothing, and every other name is as before |
| `NamespaceLaws.CreateAccepted` | `src/fs_meta/src/fs_meta_service.rs:2977-3124` | what nobody refers to can be created at a free name of a directory that is named with its current revision |
| `NamespaceLaws.ReplaceAccepted` | `src/fs_meta/src/fs_meta_service.rs:3247-3425` | and put in the place of what is there, or that can be deleted |
| `NamespaceLaws.DeleteUncovers` | `src/fs_meta/src/fs_meta_service.rs:3165-3190` | after a delete the base child under the name shows again, and the name can be created again |
| `Namespace.Tables.CreateDentry` | `src/fs_meta/src/fs_meta_service.rs:2977-3124` | errors in the order of the code, all rolled back; else the row, the back-pointer and the revision |
| `Namespace.Tables.DeleteDentry` | `src/fs_meta/src/fs_meta_service.rs:3126-3245` | deleting an absent name is accepted and changes nothing; else row, back-pointer and revision |
| `Namespace.Tables.ReplaceTarget` | `src/fs_meta/src/fs_meta_service.rs:3247-3425` | an unchanged target changes nothing; else the row, both back-pointers and the revision |
| `Namespace.Tables.Upsert` | `src/fs_meta/src/fs_meta_service.rs:2194-2221` | replaces the current target or creates the row |
| `Namespace.Tables.BumpDirRev` | `src/fs_meta/src/fs_meta_service.rs:3427-3464` | raises the revision by one exactly if it was the expected one |
| `Namespace.Tables.AllocInode` | `src/fs_meta/src/fs_meta_service.rs:2750-2849` | a new id, or the requested one if it is free |
| `Move.ApplyMove` | `src/fs_meta/src/fs_meta_service.rs:1926-1986` | the transaction goes through or leaves the tables as they were |
| `Move.PlanExists` | `src/fs_meta/src/fs_meta_service.rs:2010-2015` | a move is planned if and only if the names are there and differ, both directories can be written, and the source row holds a link, an object, or an inode that exists and is not the destination directory |
| `Move.PlanIsCurrent` | `src/fs_meta/src/fs_meta_service.rs:3906-3973` | if both revisions are still those the plan saw, the source row still holds the plan's target, however other operations fell between its reads and its transaction |
| `Move.MoveIsAtomic` | `src/fs_meta/src/fs_meta_service.rs:3906-3990` | under any interleaving a planned move goes through exactly if both revisions are current |
| `Move.MoveEffect` | `src/fs_meta/src/fs_meta_service.rs:1926-1986` | a move that goes through puts the current target at the destination, leaves a tombstone, releases an overwritten inode, counts changed rows in the revisions and changes nothing else |
| `TouchedEdges.RunDiffersIn` | `src/fs_meta/src/fs_meta_service.rs:3102-3120` | outside the touched edges the tree after any run is the tree before it, provided state changes keep directories directories |
| `TouchedEdges.OpDiffersIn` | `src/fs_meta/src/fs_meta_service.rs:3102-3120` | the touched edge is all that an operation changes about the tree, exactly if it leaves directories directories |
| `TouchedEdges.StateChangeUnseen` | `src/fs_meta/src/fs_meta_service.rs:2656-2748` | a concrete row where it does not: a directory over an object becomes a file, no edge is touched, and the answer at a name in it is gone |
| `TouchedEdges.MoveDiffersIn` | `src/fs_meta/src/fs_meta_service.rs:1926-1986` | a move changes the tree at its source, and at its destination unless the target was there already, and nowhere else |
| `MoveTree.RootedHasUniqueParents` | `src/fs_meta/src/fs_meta_service.rs:544-548` | with right back-pointers and an unreferred root every inode has one incoming dentry and the root none |
| `MoveTree.RewireKeepsAcyclic` | `src/cyfs-lib/src/fsmeta_client.rs:2071-2086` | a new edge closes no cycle if and only if its directory is not at or below its target |
| `MoveTree.OpKeepsAcyclic` | `src/fs_meta/src/fs_meta_service.rs:2977-3425` | so a bare create or replace keeps the inodes free of cycles exactly then, and every other operation always |
| `MoveTree.MoveKeepsTree` | `src/fs_meta/src/fs_meta_service.rs:1926-1986` | a move that goes through keeps the tree if and only if its destination is not at or below the moved inode |
| `MoveTree.OutsideAvoids` | `src/cyfs-lib/src/fsmeta_client.rs:2071-2086` | a destination reached by a path that does not go through the source is not at or below the moved inode |
| `MoveTree.DescendantIsPrefix` | `src/cyfs-lib/src/fsmeta_client.rs:831-845` | the textual comparison of normalized paths is strict prefix of component lists |
| `EnsureDir.DirUnder` | `src/cyfs-lib/src/fsmeta_client.rs:861-1156` | exactly when a directory can be opened or made, and then the existing one or one new inode over the object that was there, in one transaction |
| `EnsureDir.DirUnderKeepsTree` | `src/cyfs-lib/src/fsmeta_client.rs:861-1156` | making a directory keeps every edge to an inode, back-pointers, the root and the tree |
| `EnsureDir.DirUnderDiffersIn` | `src/cyfs-lib/src/fsmeta_client.rs:1018-1156` | and changes a target at most at the edge it reports |
| `EnsureDir.DirUnderKeepsView` | `src/cyfs-lib/src/fsmeta_client.rs:1018-1156` | every lookup sees what it saw, except that a directory object, or nothing, has become an inode over it |
| `EnsureDir.ExistingOpens` | `src/cyfs-lib/src/fsmeta_client.rs:1174-1194` | a path opens without anything made if and only if it leads through directories that are there |
| `EnsureDir.NothingBelow` | `src/cyfs-lib/src/fsmeta_client.rs:1254-1262` | below a name under which nothing is, every path can be made |
| `EnsureDir.DirAlwaysFits` | `src/cyfs-lib/src/fsmeta_client.rs:861-1156` | with right back-pointers the dentry of a new directory is always accepted |
| `EnsureDir.EnsureDirInode` | `src/cyfs-lib/src/fsmeta_client.rs:1158-1268` | on tables with right back-pointers it succeeds if and only if every name on the way can be opened (Opens): a directory inode, or in a writable directory a directory object, a tombstone or nothing; a path of existing directories is always opened and nothing changes; on success the inode is the one reached by the path, a made one is empty over the base that was seen, and every edge to an inode, every target outside the reported edges, and what every lookup sees stay |
| `ClientMove.PathsAreEnough` | `src/cyfs-lib/src/fsmeta_client.rs:2071-2086` | if the new path is not below the old one, the destination directory is not at or below what is moved |
| `ClientMove.MovePath` | `src/cyfs-lib/src/fsmeta_client.rs:2058-2092` | every client move that no other interleaves with, accepted or not, keeps back-pointers and the tree and differs in the reported edges only; when it plans, it performs exactly that move; it goes through if and only if both directories can be opened, the source directory was there, both can be written, the source row is something to move and the new path is not below the old (or the paths are one); then the old name holds a tombstone and the new path leads to what was under the old one |
| `InterleavedMoves.MoveAfterAnything` | `src/fs_meta/src/fs_meta_service.rs:3906-3990` | a move planned and applied with any operations of others between keeps the inodes free of cycles if and only if it is refused or its destination, in the tables of that moment, is not at or below what it moves |
| `InterleavedMoves.InterleavedMovesCloseCycle` | `src/cyfs-lib/src/fsmeta_client.rs:2071-2086` | it happens: two clients, each passing its own comparison of paths on a proper tree, move /a to /b/a and /b to /a/b; the service accepts both and the two directories are below each other, off the root |
| `Lease.LeaseTable.Acquire` | `src/fs_meta/src/fs_meta_service.rs:2023-2095` | a live lease of the session is renewed with its fence; with none live the next fence is granted; else conflict |
| `Lease.LeaseTable.Renew` | `src/fs_meta/src/fs_meta_service.rs:2097-2138` | succeeds exactly for the session and fence of the row, expired or not |
| `Lease.LeaseTable.Release` | `src/fs_meta/src/fs_meta_service.rs:2140-2179` | succeeds exactly for the session and fence of the row |
| `Lease.LeaseLasts` | `src/fs_meta/src/fs_meta_service.rs:2023-2160` | after an acquire, open or renewal at now with now + ttl in i64: whatever others do before now + ttl, the row keeps session, fence and deadline, their acquires and opens are refused and no reclaim touches it |
| `Lease.LeaseEnds` | `src/fs_meta/src/fs_meta_service.rs:2023-2095` | from now + ttl on, not renewed, it goes to whoever acquires next, with the next fence, reclaimed before or not |
| `Lease.HolderMay` | `src/fs_meta/src/fs_meta_service.rs:2097-2179` | before now + ttl the holder can renew and release; what is released goes to whoever acquires next, at any time, with the next fence |
| `Lease.ReclaimedIsLost` | `src/fs_meta/src/fs_meta_service.rs:462-479` | a lease that a reclaim finds expired cannot be renewed or released any more |
| `Lease.LeaseTable.Reclaim` | `src/fs_meta/src/fs_meta_service.rs:462-479` | exactly the expired leases are cleared, and Working rows among them become Cooling |
| `Lease.LeaseTable.UpdateState` | `src/fs_meta/src/fs_meta_service.rs:2656-2748` | replaces the state columns exactly if they all are those of the expected state |
| `Lease.SeqCountsGrants` | `src/fs_meta/src/fs_meta_service.rs:2056-2066` | over any run the sequence number is the old one plus the number of new grants |
| `Lease.OneSessionPerFence` | `src/fs_meta/src/fs_meta_service.rs:2031-2080` | two grants with one fence, whatever came between, went to one session |
| `Lease.LiveLeaseExcludes` | `src/fs_meta/src/fs_meta_service.rs:2031-2160` | after a grant, over any run before the deadline without the holder's release, the row keeps session and fence, every acquire by another session is refused and the holder's succeed, and nobody else opens, renews or releases |
| `Lease.SupersededFence` | `src/fs_meta/src/fs_meta_service.rs:2108-2160` | once a newer fence is granted, an older one never again renews or releases |
| `Lease.StateRoundTrip` | `src/fs_meta/src/fs_meta_service.rs:780-867` | a state read from the columns it was written to is that state |
| `Lease.CasFindsReadState` | `src/fs_meta/src/fs_meta_service.rs:2683-2693` | a compare-and-set expecting the state just read matches exactly if unused columns are NULL |
| `Lease.OnlyReclaimDirties` | `src/fs_meta/src/fs_meta_service.rs:462-478` | only the reclaim of an expired Working row leaves an unused column set |
| `Lease.LeftoverStays` | `src/fs_meta/src/fs_meta_service.rs:462-478` | after such a reclaim, over any run in which no truncating open writes the row back, no compare-and-set succeeds on the row, whatever it expects |
| `Lease.LeaseTable.OpenFileWriter` | `src/fs_meta/src/fs_meta_service.rs:4105-4530` | opening an existing file for writing is one transaction: it leaves exactly the row of lease, truncation and compare-and-set, or nothing changes |
| `Lease.OpenAccepted` | `src/fs_meta/src/fs_meta_service.rs:4305-4521` | it succeeds if and only if the flag suits the state (in use: only continued; cooling: any; else anything but continued, and only of a file), the buffer service answers, the lease is granted, and either no unused column is set or the open truncates a file with a base object |
| `Lease.OpenedWith` | `src/fs_meta/src/fs_meta_service.rs:4370-4500` | a continued write keeps the buffer of the state read and any other open has the new one; only a truncating open clears the base object |
| `Lease.LeftoverOpens` | `src/fs_meta/src/fs_meta_service.rs:4503-4521` | a row left over by a reclaim can be opened only by a truncating open of a file with a base object, and then always |
| `Lease.ReadStateAccepted` | `src/fs_meta/src/fs_meta_service.rs:2656-2748` | over any run a compare-and-set with the state just read is accepted if and only if the row was not reclaimed while Working since a truncating open last wrote it back |
| `Lease.ReclaimedFileIsStuck` | `src/fs_meta/src/fs_meta_service.rs:462-478` | a concrete row: it reads as Cooling, the compare-and-set expecting exactly that is refused, and so is every open but a truncating one of a file with a base object |
| `ObjStats.StatTable.Bump` | `src/fs_meta/src/fs_meta_service.rs:3626-3700` | only the object's row changes, as the delta says, or the bump is refused |
| `ObjStats.StatTable.ListZero` | `src/fs_meta/src/fs_meta_service.rs:3702-3727` | zero-count objects since ts or before, longest first, each once, at most limit, and none left out before a listed one |
| `ObjStats.StatTable.DeleteIfZero` | `src/fs_meta/src/fs_meta_service.rs:3729-3760` | removes the row exactly if its count is zero |
| `ObjStats.ReferencedSurvives` | `src/fs_meta/src/fs_meta_service.rs:3729-3760` | an object with references survives every run of deletes, one without is gone once one of them is its own |
| `ObjStats.CountIsSum` | `src/fs_meta/src/fs_meta_service.rs:3626-3760` | over any run the count is the sum of the accepted deltas since the row came into being |
| `ObjStats.ZeroMarkedAlways` | `src/fs_meta/src/fs_meta_service.rs:3655-3676` | zero_since is set exactly when the count is zero |
| `ObjStats.ZeroContinuously` | `src/fs_meta/src/fs_meta_service.rs:3655-3676` | an object at zero has been so ever since the one step that brought it there, whose time zero_since records |
| `ObjStats.ListedSinceBefore` | `src/fs_meta/src/fs_meta_service.rs:3702-3727` | with a clock that does not go back, a listed object has been at zero since a step no later than ts |
| `ObjStats.ListableSince` | `src/fs_meta/src/fs_meta_service.rs:3702-3727` | over any run, exactly those objects may be listed for ts that are at zero and came there at ts or before |
| `Listing.ListMergedDentries` | `src/fs_meta/src/fs_meta_service.rs:1627-1672` | a name is listed with a target if and only if upper-then-base lookup finds that target and it is no tombstone; fails exactly for a missing inode, a non-directory or a wrong base |
| `Listing.EntriesOf` | `src/fs_meta/src/fs_meta_service.rs:2907-2930` | each listed inode comes with its record |
| `Listing.PageFromOrderedMap` | `src/cyfs/src/named_file_mgr.rs:874-897` | a page is the next names in order with their entries, as many as asked for or all that are left; an empty page keeps the cursor |
| `Listing.AfterPage` | `src/cyfs/src/named_file_mgr.rs:874-897` | a page and what its cursor has still to come to are what the old cursor had |
| `Listing.PagesAreListing` | `src/fs_meta/src/list_cache.rs:44-71` | for any page sizes the pages are a prefix of the listing, and with as many pages as names all of it |
| `Listing.PagingLosesNothing` | `src/fs_meta/src/list_cache.rs:44-71` | from the start, the pages concatenate to the names in order, each once |
| `Listing.ListCache.StartSession` | `src/fs_meta/src/list_cache.rs:31-42` | a fresh session id until the counter saturates; other sessions stay |
| `Listing.ListCache.ListNext` | `src/fs_meta/src/list_cache.rs:44-71` | the session's next page, its cursor moved, all other sessions as they were |
| `Listing.ListCache.StopSession` | `src/fs_meta/src/list_cache.rs:73-75` | forgets exactly that session |
| `NameOrder.OrderedUnique` | `src/fs_meta/src/list_cache.rs:60-68` | an ordered list of names is determined by its members |
| `NameOrder.LessFirst` | `src/fs_meta/src/list_cache.rs:60-68` | names are in the order of the first character in which they differ, a prefix before what it begins |
| `InodeTables.InodeTable.GetOrCreate` | `src/fs_daemon/src/fs_daemon.rs:176-189` | without a hint the maps stay inverse; with one they do exactly if neither inode nor path was known for something else |
| `InodeTables.InodeTable.RemovePathRecursive` | `src/fs_daemon/src/fs_daemon.rs:191-218` | exactly the paths at or below the path and their inodes go, from both maps |
| `InodeTables.InodeTable.RenamePathRecursive` | `src/fs_daemon/src/fs_daemon.rs:220-267` | the renamed table path by path and inode by inode; the maps stay inverse if and only if no moved path moves onto another path of the table |
| `InodeTables.LostEntry` | `src/fs_daemon/src/fs_daemon.rs:258-266` | the failing case: renaming /a to /a/b with /a/b known leaves the inode of /a with a path that leads nowhere |
| `InodeTables.RenamedInverse` | `src/fs_daemon/src/fs_daemon.rs:220-267` | that equivalence, for the state the loop ends in |
| `InodeTables.HoldsStep` | `src/fs_daemon/src/fs_daemon.rs:258-266` | one step of the loop in order of length; renaming a directory over its own ancestor relies on that order |
| `InodeTables.RenameIsSubstitution` | `src/fs_daemon/src/fs_daemon.rs:220-267` | when the new path is not strictly inside the old one, every path below it keeps its inode under its new name and all else stays |
| `InodeTables.SubUnder` | `src/fs_daemon/src/fs_daemon.rs:258-266` | moving a path along with its directory and back gives the path |
| `InodeTables.UnderIsPrefix` | `src/fs_daemon/src/fs_daemon.rs:201-206` | for texts of paths, at or below means having its names first, so /ab is not below /a |
| `InodeTables.SubIsSubstitution` | `src/fs_daemon/src/fs_daemon.rs:258-266` | and a path below a moved directory moves to the same names below the new one |

## Left out

- `DiffChunkListWriter`: sizes and positions are unbounded naturals, so the overflow errors of u64 sums and offsets do not occur; sizes are taken to fit, as they do for files below 2^64 bytes.
- `DiffChunkListReader`: polling is one step that delivers some non-empty part of the open chunk or its end; wakers, the loading future, the fallback chunk opener, I/O errors and chunks shorter than their identifier says are not modelled; where the recorded base sizes are wrong, opening is modelled and reading is not.
- `ResolveChunkSizes`: the state of a chunk in the store is present or absent; states such as incomplete or linked to a changed local file are not modelled.
- `PathResolveCache`: a trie node is identified by its path, so the children maps and mutable pointers of the trie are one flat map; nodes are visited by path.
- `Run`: assumes that a commit is followed by its invalidations before the next resolve, and that directories keep their base object; resolves racing with a commit are not modelled. In `SystemRun` a client move is one step, its edges invalidated at the end of it.
- `Commit`: the touched edges of one transaction come as a list; the closing and in-flight handshake of transactions and their timeouts are not modelled.
- `ApplyMove`: the second look at both revisions (lock_move_parents_in_order) is not repeated, because within one transaction it reads what was just read.
- `EnsureDirInode`: the retry on a conflicting transaction is left out, because calls are not interleaved there; the resolve it asks is the cacheless one, which `CachedResolve.ResolvePath` shows to be the same.
- `MovePath`: is proved for moves made one after the other; with others in between `InterleavedMoves.MoveAfterAnything` has the exact condition.
- `AllocInode`: `BackPointersAlways` asks that a new record comes without ref_by, as every caller in the service passes it.
- `Acquire`: times are naturals with i64 saturation of the deadline; a ttl beyond i64 is not wrapped.
- `ListNext`: u32 page sizes are naturals.
- `RenamePathRecursive`: runs under both locks at once, as in the code; poisoned locks are not modelled. A char of its strings stands for one byte of UTF-8, so that lengths are the ones the code sorts by.
- set_inode and remove_inode as calls of their own overwrite or delete whole inode rows, whatever their dentries and leases; the runs proved about here do not contain them. The set_inode inside a truncating open, which writes back the row just read, is part of `Lease.LeaseTable.OpenFileWriter`.
- `Lease.LeaseTable.OpenFileWriter`: without the branches that make a new inode first, the loading of the base chunk list, and the buffer service beyond whether it answers; clearing the base object of a file is no operation of `NamespaceState`, whose lookups read base objects of directories only.
- SQLite, connections, schema migration, JSON, kRPC and the HTTP server: tables are maps, and a savepoint or transaction is one atomic step.
- The listing of directories with a base in NamedFileMgr merges the base a second time over a page without tombstones; listing is proved at the fs_meta layer only.
- publish_dir and try_finalize_dir, the background task queue, FUSE callbacks, xattrs, configuration and logging.
- The size_used accounting of the file buffer adds expected sizes and subtracts actual ones, so no conservation law holds for it.
- Hashing, the encoding of objects and the parsing of path strings live in libraries that are not part of this model.
