// Streaming, seekable readers: DiffChunkListReader, and ChunkListReader, which is the same machine
// over a list without diff entries.
module ChunkReading {
  import opened Bytes
  import opened ChunkStore
  import opened ChunkSizes
  import opened SortedKeys
  import opened FileImage
  import opened DiffWriter
  import opened DiffSizing

  datatype ReadError = SeekInProgress | ChunkMissing

  datatype DiffEntryMeta = DiffEntryMeta(chunkIndex: nat, fileOffset: nat, size: nat, chunkId: Option<ChunkId>)

  datatype MergedChunkSource = BaseChunk(chunkId: ChunkId) | DiffEntry(entryIndex: nat)

  datatype MergedChunkMeta = MergedChunkMeta(size: nat, start: nat, source: MergedChunkSource)

  // ---- building the table of chunks ----

  // build_diff_entries: the entries lie one after the other in the diff file.
  method BuildDiffEntries(indices: seq<nat>, chunkIds: Option<seq<ChunkId>>, sizes: seq<nat>)
    returns (r: Result<seq<DiffEntryMeta>, Error>)
    ensures r.Ok? <==> |sizes| == |indices|
    ensures r.Ok? ==> |r.value| == |indices| && forall i :: 0 <= i < |indices| ==>
      r.value[i].chunkIndex == indices[i] && r.value[i].size == sizes[i] && r.value[i].fileOffset == Sum(sizes[..i])
  {
    if |sizes| != |indices| { return Err(InvalidParam); }
    var entries: seq<DiffEntryMeta> := [];
    var offset: nat := 0;
    for i := 0 to |indices|
      invariant |entries| == i && offset == Sum(sizes[..i])
      invariant forall k :: 0 <= k < i ==>
        entries[k].chunkIndex == indices[k] && entries[k].size == sizes[k] && entries[k].fileOffset == Sum(sizes[..k])
    {
      var id := if chunkIds.Some? && i < |chunkIds.value| then Some(chunkIds.value[i]) else None;
      entries := entries + [DiffEntryMeta(indices[i], offset, sizes[i], id)];
      SumTake(sizes, i);
      offset := offset + sizes[i];
    }
    return Ok(entries);
  }

  ghost predicate InFile(source: MergedChunkSource, entries: seq<DiffEntryMeta>, data: seq<byte>) {
    source.DiffEntry? ==>
      source.entryIndex < |entries| &&
      entries[source.entryIndex].fileOffset + entries[source.entryIndex].size <= |data|
  }

  // The bytes a chunk of the table stands for.
  ghost function SourceBytes(source: MergedChunkSource, entries: seq<DiffEntryMeta>, data: seq<byte>): seq<byte> {
    if !InFile(source, entries, data) then []
    else
      match source
      case BaseChunk(id) => id.content
      case DiffEntry(j) => data[entries[j].fileOffset..entries[j].fileOffset + entries[j].size]
  }

  ghost function TableBytes(chunks: seq<MergedChunkMeta>, entries: seq<DiffEntryMeta>, data: seq<byte>): (b: seq<seq<byte>>)
    ensures |b| == |chunks|
  {
    seq(|chunks|, i requires 0 <= i < |chunks| => SourceBytes(chunks[i].source, entries, data))
  }

  function TableSizes(chunks: seq<MergedChunkMeta>): (s: seq<nat>)
    ensures |s| == |chunks|
  {
    seq(|chunks|, i requires 0 <= i < |chunks| => chunks[i].size)
  }

  // Recorded sizes are those of the bytes.
  ghost predicate SizedRight(chunks: seq<MergedChunkMeta>, entries: seq<DiffEntryMeta>, data: seq<byte>) {
    forall i :: 0 <= i < |chunks| ==>
      InFile(chunks[i].source, entries, data) && chunks[i].size == |SourceBytes(chunks[i].source, entries, data)|
  }

  ghost predicate Placed(chunks: seq<MergedChunkMeta>) {
    forall i :: 0 <= i < |chunks| ==> chunks[i].start == Sum(TableSizes(chunks)[..i])
  }

  // Chunks that do not come from the diff file are among the given ones.
  ghost predicate OnlyFrom(chunks: seq<MergedChunkMeta>, ids: seq<ChunkId>) {
    forall i :: 0 <= i < |chunks| && chunks[i].source.BaseChunk? ==> chunks[i].source.chunkId in ids
  }

  // Entries that cut the diff file into the segments of the given sizes.
  ghost predicate Cuts(entries: seq<DiffEntryMeta>, indices: seq<nat>, sizes: seq<nat>, data: seq<byte>) {
    |entries| == |indices| == |sizes| && Sum(sizes) <= |data| &&
    forall i :: 0 <= i < |indices| ==>
      entries[i].chunkIndex == indices[i] && entries[i].size == sizes[i] && entries[i].fileOffset == Sum(sizes[..i])
  }

  lemma EntryBytes(entries: seq<DiffEntryMeta>, indices: seq<nat>, sizes: seq<nat>, data: seq<byte>, j: nat)
    requires Cuts(entries, indices, sizes, data) && j < |indices|
    ensures SourceBytes(DiffEntry(j), entries, data) == Segment(data, sizes, j)
    ensures InFile(DiffEntry(j), entries, data) && |SourceBytes(DiffEntry(j), entries, data)| == entries[j].size
  {
    SumSplit(sizes, j);
  }

  lemma TableReplace(chunks: seq<MergedChunkMeta>, entries: seq<DiffEntryMeta>, data: seq<byte>, k: nat, c: MergedChunkMeta)
    requires k <= |chunks|
    requires InFile(c.source, entries, data) && c.size == |SourceBytes(c.source, entries, data)|
    ensures var chunks2 := if k < |chunks| then chunks[k := c] else chunks + [c];
            var b, x := TableBytes(chunks, entries, data), SourceBytes(c.source, entries, data);
            (SizedRight(chunks, entries, data) ==> SizedRight(chunks2, entries, data))
            && TableBytes(chunks2, entries, data) == if k < |b| then b[k := x] else b + [x]
  {
  }

  // The first loop of build_merged_chunks.
  method BaseTable(baseIds: seq<ChunkId>, baseSizes: seq<nat>, ghost entries: seq<DiffEntryMeta>, ghost data: seq<byte>)
    returns (chunks: seq<MergedChunkMeta>)
    requires |baseSizes| == |baseIds|
    ensures TableBytes(chunks, entries, data) == Contents(baseIds) && TableSizes(chunks) == baseSizes
    ensures OnlyFrom(chunks, baseIds)
    ensures TrueSizesOf(baseIds, baseSizes) ==> SizedRight(chunks, entries, data)
  {
    chunks := [];
    for i := 0 to |baseIds|
      invariant |chunks| == i
      invariant forall k :: 0 <= k < i ==> chunks[k] == MergedChunkMeta(baseSizes[k], 0, BaseChunk(baseIds[k]))
    {
      chunks := chunks + [MergedChunkMeta(baseSizes[i], 0, BaseChunk(baseIds[i]))];
    }
  }

  // build_merged_chunks: the base list with the diff entries laid over it, each with its start.
  method BuildMergedChunks(baseIds: seq<ChunkId>, baseSizes: seq<nat>, entries: seq<DiffEntryMeta>,
                           ghost indices: seq<nat>, ghost sizes: seq<nat>, ghost data: seq<byte>)
    returns (r: Result<seq<MergedChunkMeta>, Error>)
    requires Cuts(entries, indices, sizes, data)
    ensures r.Ok? <==>
      |baseIds| == |baseSizes| && Overlay(Contents(baseIds), indices, Segments(data, sizes, |indices|), |indices|).Some?
    ensures r.Ok? ==> Placed(r.value) && OnlyFrom(r.value, baseIds)
    ensures r.Ok? && TrueSizesOf(baseIds, baseSizes) ==> SizedRight(r.value, entries, data)
    ensures r.Ok? && entries == [] ==> TableSizes(r.value) == baseSizes
    ensures r.Ok? ==>
      Overlay(Contents(baseIds), indices, Segments(data, sizes, |indices|), |indices|)
      == Some(TableBytes(r.value, entries, data))
  {
    if |baseIds| != |baseSizes| { return Err(InvalidParam); }
    ghost var base, segs := Contents(baseIds), Segments(data, sizes, |indices|);
    hide Sum, Flatten, SourceBytes, InFile, SizedRight, Placed, TrueSizesOf, TableSizes;
    var chunks := BaseTable(baseIds, baseSizes, entries, data);
    for j := 0 to |entries|
      invariant TrueSizesOf(baseIds, baseSizes) ==> SizedRight(chunks, entries, data)
      invariant OnlyFrom(chunks, baseIds) && (j == 0 ==> TableSizes(chunks) == baseSizes)
      invariant Overlay(base, indices, segs, j) == Some(TableBytes(chunks, entries, data))
    {
      var k := entries[j].chunkIndex;
      if k > |chunks| {
        EntryGap(base, indices, segs, j);
        return Err(InvalidParam);
      }
      var c := MergedChunkMeta(entries[j].size, 0, DiffEntry(j));
      LayEntry(chunks, base, entries, indices, sizes, data, j);
      chunks := if k == |chunks| then chunks + [c] else chunks[k := c];
    }
    var placed := PlaceChunks(chunks);
    SameTable(chunks, placed, entries, data);
    return Ok(placed);
  }

  lemma SameTable(chunks: seq<MergedChunkMeta>, placed: seq<MergedChunkMeta>, entries: seq<DiffEntryMeta>, data: seq<byte>)
    requires |placed| == |chunks|
    requires forall i :: 0 <= i < |chunks| ==> placed[i].size == chunks[i].size && placed[i].source == chunks[i].source
    ensures SizedRight(chunks, entries, data) ==> SizedRight(placed, entries, data)
    ensures TableBytes(placed, entries, data) == TableBytes(chunks, entries, data) && TableSizes(placed) == TableSizes(chunks)
  {
  }

  // Laying one more entry over the table lays its segment over the chunks.
  lemma LayEntry(chunks: seq<MergedChunkMeta>, base: seq<seq<byte>>, entries: seq<DiffEntryMeta>,
                 indices: seq<nat>, sizes: seq<nat>, data: seq<byte>, j: nat)
    requires Cuts(entries, indices, sizes, data) && j < |indices| && indices[j] <= |chunks|
    requires Overlay(base, indices, Segments(data, sizes, |indices|), j) == Some(TableBytes(chunks, entries, data))
    ensures var c, k := MergedChunkMeta(entries[j].size, 0, DiffEntry(j)), indices[j];
            var chunks2 := if k == |chunks| then chunks + [c] else chunks[k := c];
            (SizedRight(chunks, entries, data) ==> SizedRight(chunks2, entries, data)) &&
            Overlay(base, indices, Segments(data, sizes, |indices|), j + 1) == Some(TableBytes(chunks2, entries, data))
  {
    EntryBytes(entries, indices, sizes, data, j);
    hide SourceBytes, Sum, Segment, InFile;
    TableReplace(chunks, entries, data, indices[j], MergedChunkMeta(entries[j].size, 0, DiffEntry(j)));
  }

  lemma EntryGap(base: seq<seq<byte>>, indices: seq<nat>, segs: seq<seq<byte>>, j: nat)
    requires j < |indices| == |segs| && Overlay(base, indices, segs, j).Some?
    requires indices[j] > |Overlay(base, indices, segs, j).value|
    ensures Overlay(base, indices, segs, |indices|) == None
  {
    OverlayFails(base, indices, segs, j + 1, |indices|);
  }

  lemma {:induction false} OverlayFails(base: seq<seq<byte>>, indices: seq<nat>, segs: seq<seq<byte>>, j: nat, n: nat)
    requires j <= n <= |indices| == |segs| && Overlay(base, indices, segs, j) == None
    ensures Overlay(base, indices, segs, n) == None
    decreases n
  {
    if j < n { OverlayFails(base, indices, segs, j, n - 1); }
  }

  // The last loop of build_merged_chunks.
  method PlaceChunks(chunks: seq<MergedChunkMeta>) returns (placed: seq<MergedChunkMeta>)
    ensures |placed| == |chunks| && Placed(placed)
    ensures forall i :: 0 <= i < |chunks| ==> placed[i].size == chunks[i].size && placed[i].source == chunks[i].source
  {
    placed := [];
    var start: nat := 0;
    var sizes := TableSizes(chunks);
    for i := 0 to |chunks|
      invariant |placed| == i && start == Sum(sizes[..i])
      invariant forall k :: 0 <= k < i ==> placed[k] == chunks[k].(start := Sum(sizes[..k]))
    {
      placed := placed + [chunks[i].(start := start)];
      SumTake(sizes, i);
      start := start + chunks[i].size;
    }
    assert TableSizes(placed) == sizes;
  }

  // Where a position lies among chunks of the given sizes.
  ghost predicate Inside(sizes: seq<nat>, position: nat, index: nat, offset: nat) {
    index < |sizes| && offset < sizes[index] && Sum(sizes[..index]) + offset == position
  }

  // calc_seek_target, for a file of the given length.
  function TargetIn(from: SeekFrom, position: nat, total: nat): Result<nat, Error> {
    var target := match from
      case Start(offset) => offset
      case Current(delta) => position + delta
      case End(delta) => total + delta;
    if 0 <= target <= total then Ok(target) else Err(OffsetTooLarge)
  }

  // The start of chunk i.
  ghost function StartOf(sizes: seq<nat>, i: nat): nat
    requires i <= |sizes|
  {
    Sum(sizes[..i])
  }

  lemma NextStart(sizes: seq<nat>, i: nat)
    requires i < |sizes|
    ensures StartOf(sizes, i + 1) == StartOf(sizes, i) + sizes[i]
  {
    SumTake(sizes, i);
  }

  // The loop of the binary search.
  method FindChunk(chunks: seq<MergedChunkMeta>, at: nat) returns (index: nat)
    requires Placed(chunks) && at < Sum(TableSizes(chunks))
    ensures index < |chunks| && chunks[index].start <= at
    ensures Inside(TableSizes(chunks), at, index, at - chunks[index].start)
  {
    hide StartOf, Sum, Placed, TableSizes, Inside;
    ghost var sizes := TableSizes(chunks);
    PlacedStarts(chunks);
    var left: nat, right: nat := 0, |chunks|;
    while left < right
      invariant left <= right <= |chunks|
      invariant StartOf(sizes, left) <= at
      invariant right < |chunks| ==> at < StartOf(sizes, right + 1)
    {
      var mid := left + (right - left) / 2;
      NextStart(sizes, mid);
      if chunks[mid].start + chunks[mid].size <= at {
        left := mid + 1;
      } else {
        right := mid;
      }
    }
    index := left;
    IsInside(chunks, at, index);
  }

  lemma PlacedStarts(chunks: seq<MergedChunkMeta>)
    requires Placed(chunks)
    ensures StartOf(TableSizes(chunks), 0) == 0 && StartOf(TableSizes(chunks), |chunks|) == Sum(TableSizes(chunks))
    ensures forall i :: 0 <= i < |chunks| ==>
      chunks[i].start == StartOf(TableSizes(chunks), i) && chunks[i].size == TableSizes(chunks)[i]
  {
    assert TableSizes(chunks)[..|chunks|] == TableSizes(chunks);
  }

  lemma IsInside(chunks: seq<MergedChunkMeta>, at: nat, i: nat)
    requires Placed(chunks) && i <= |chunks|
    requires StartOf(TableSizes(chunks), i) <= at < StartOf(TableSizes(chunks), |chunks|)
    requires i < |chunks| ==> at < StartOf(TableSizes(chunks), i + 1)
    ensures i < |chunks| && chunks[i].start <= at && Inside(TableSizes(chunks), at, i, at - chunks[i].start)
  {
    if i < |chunks| { NextStart(TableSizes(chunks), i); }
  }

  // At most one chunk contains a position, also when some chunks are empty.
  lemma InsideUnique(sizes: seq<nat>, position: nat, i: nat, o: nat, j: nat, p: nat)
    requires Inside(sizes, position, i, o) && Inside(sizes, position, j, p)
    ensures i == j && o == p
  {
    SumTake(sizes, i);
    SumTake(sizes, j);
    SumPrefixLe(sizes, Min(i + 1, j), j);
    SumPrefixLe(sizes, Min(j + 1, i), i);
  }

  // The bytes left in chunk a at an offset are the bytes of the file from there on.
  lemma RestOfChunk(bytes: seq<seq<byte>>, a: nat, offset: nat, position: nat)
    requires a < |bytes| && offset <= |bytes[a]| && position == Sum(Sizes(bytes)[..a]) + offset
    ensures var n := |bytes[a]| - offset;
            position + n <= |Flatten(bytes)| && Flatten(bytes)[position..position + n] == bytes[a][offset..]
  {
    hide Sum, Flatten;
    FlattenSlice(bytes, a);
    var o := Sum(Sizes(bytes)[..a]);
    SliceOfSlice(Flatten(bytes), o, bytes[a], offset);
  }

  lemma SliceOfSlice(s: seq<byte>, o: nat, part: seq<byte>, offset: nat)
    requires o + |part| <= |s| && s[o..o + |part|] == part && offset <= |part|
    ensures s[o + offset..o + |part|] == part[offset..]
  {
  }

  class DiffChunkListReader {
    const store: NamedStore
    const diffFile: DiffFile
    const entries: seq<DiffEntryMeta>
    const chunks: seq<MergedChunkMeta>
    const totalSize: nat

    var position: nat
    var nextIndex: nat
    var nextOffset: nat
    var activeIndex: Option<nat>
    var pendingSeek: Option<nat>
    var current: Option<seq<byte>>   // what the open chunk reader has still to deliver

    constructor (store: NamedStore, diffFile: DiffFile, entries: seq<DiffEntryMeta>, chunks: seq<MergedChunkMeta>)
      requires Placed(chunks)
      ensures this.store == store && this.diffFile == diffFile && this.entries == entries && this.chunks == chunks
      ensures totalSize == Sum(TableSizes(chunks)) && position == 0
      ensures SizedRight(chunks, entries, diffFile.Read()) ==>
        Valid() && Abs() == Cursor(Flatten(TableBytes(chunks, entries, diffFile.Read())), 0)
    {
      this.store := store;
      this.diffFile := diffFile;
      this.entries := entries;
      this.chunks := chunks;
      this.totalSize := if chunks == [] then 0 else chunks[|chunks| - 1].start + chunks[|chunks| - 1].size;
      position := 0;
      nextIndex, nextOffset := 0, 0;
      activeIndex, pendingSeek, current := None, None, None;
      new;
      TotalSize();
    }

    ghost function Data(): seq<byte>
      reads diffFile
    {
      diffFile.Read()
    }

    // The file this reader streams, and the position in it.
    ghost function Abs(): Cursor
      reads this, diffFile
    {
      Cursor(Flatten(TableBytes(chunks, entries, Data())), position)
    }

    ghost predicate Valid()
      reads this, diffFile
    {
      SizedRight(chunks, entries, Data()) && Placed(chunks) && totalSize == Sum(TableSizes(chunks)) &&
      position <= totalSize && (pendingSeek.Some? ==> pendingSeek.value <= totalSize) &&
      nextIndex <= |chunks| && (activeIndex.Some? <==> current.Some?) &&
      (activeIndex.Some? ==> activeIndex.value < |chunks|) &&
      if current.None? then AtChunk() else Streaming()
    }

    ghost predicate AtChunk()
      reads this
    {
      nextIndex <= |chunks| && position == Sum(TableSizes(chunks)[..nextIndex]) + nextOffset &&
      if nextIndex < |chunks| then nextOffset <= chunks[nextIndex].size else nextOffset == 0
    }

    // The open chunk reader still has to deliver the rest of the active chunk.
    ghost predicate Streaming()
      reads this, diffFile
    {
      current.Some? && activeIndex.Some? && activeIndex.value < |chunks| &&
      var a := activeIndex.value;
      var b := SourceBytes(chunks[a].source, entries, Data());
      |current.value| <= |b| && current.value == b[|b| - |current.value|..] &&
      position + |current.value| == Sum(TableSizes(chunks)[..a]) + |b|
    }

    // The bytes of chunk i can be had: from the diff file, or from the store.
    ghost predicate Stored(i: nat)
      requires i < |chunks|
      reads store
    {
      chunks[i].source.BaseChunk? ==> chunks[i].source.chunkId in store.chunks
    }

    ghost predicate SourcesStored()
      reads store
    {
      store.Valid() && forall i :: 0 <= i < |chunks| ==> Stored(i)
    }

    // A store with the base list has every chunk a reader over it can ask for.
    lemma BaseIsEnough(ids: seq<ChunkId>)
      requires OnlyFrom(chunks, ids) && store.Valid() && store.Has(ids)
      ensures SourcesStored()
    {
      forall i | 0 <= i < |chunks| ensures Stored(i) {
        if chunks[i].source.BaseChunk? {
          var j :| 0 <= j < |ids| && ids[j] == chunks[i].source.chunkId;
        }
      }
    }

    lemma TotalSize()
      requires Placed(chunks)
      ensures Sum(TableSizes(chunks)) == if chunks == [] then 0 else chunks[|chunks| - 1].start + chunks[|chunks| - 1].size
    {
      if chunks != [] {
        var sizes := TableSizes(chunks);
        SumTake(sizes, |chunks| - 1);
        assert sizes[..|chunks|] == sizes;
      }
    }

    lemma TableLength()
      requires SizedRight(chunks, entries, Data())
      ensures Sizes(TableBytes(chunks, entries, Data())) == TableSizes(chunks)
      ensures |Flatten(TableBytes(chunks, entries, Data()))| == Sum(TableSizes(chunks))
    {
      FlattenLength(TableBytes(chunks, entries, Data()));
      assert Sizes(TableBytes(chunks, entries, Data())) == TableSizes(chunks);
    }

    method CalcSeekTarget(from: SeekFrom) returns (r: Result<nat, Error>)
      ensures r == TargetIn(from, position, totalSize)
      ensures Valid() ==>
        match Abs().Seek(from)
        case Ok(c) => r == Ok(c.position)
        case Err(e) => r == Err(e)
    {
      hide Flatten, Sum, SizedRight, Placed, Streaming, AtChunk;
      if Valid() { TableLength(); }
      var target := match from
        case Start(offset) => offset
        case Current(delta) => position + delta
        case End(delta) => totalSize + delta;
      if target < 0 || target > totalSize { return Err(OffsetTooLarge); }
      return Ok(target);
    }

    // Binary search for the one chunk that contains a position.
    method LocatePosition(at: nat) returns (index: nat, offset: nat)
      requires Placed(chunks) && totalSize == Sum(TableSizes(chunks))
      ensures at < totalSize ==> Inside(TableSizes(chunks), at, index, offset)
      ensures at >= totalSize ==> (index, offset) == (|chunks|, 0)
    {
      if at >= totalSize || |chunks| == 0 {
        return |chunks|, 0;
      }
      index := FindChunk(chunks, at);
      offset := at - chunks[index].start;
    }

    method ApplySeekTarget(target: nat)
      requires Placed(chunks) && totalSize == Sum(TableSizes(chunks)) && target <= totalSize
      modifies this`position, this`nextIndex, this`nextOffset, this`activeIndex, this`pendingSeek, this`current
      ensures position == target && pendingSeek == None && current == None
      ensures SizedRight(chunks, entries, Data()) ==> Valid() && Abs() == Cursor(old(Abs()).bytes, target)
    {
      position := target;
      nextIndex, nextOffset := LocatePosition(target);
      activeIndex, pendingSeek, current := None, None, None;
      assert TableSizes(chunks)[..|chunks|] == TableSizes(chunks);
    }

    // start_seek remembers the target; poll_complete moves there.
    method StartSeek(from: SeekFrom) returns (r: Result<(), Error>)
      requires Valid()
      modifies this`pendingSeek
      ensures Valid() && Abs() == old(Abs())
      ensures match Abs().Seek(from)
              case Ok(c) => r == Ok(()) && pendingSeek == Some(c.position)
              case Err(e) => r == Err(e) && pendingSeek == old(pendingSeek)
    {
      var target := CalcSeekTarget(from);
      if target.Err? { return Err(target.error); }
      pendingSeek := Some(target.value);
      return Ok(());
    }

    method PollComplete() returns (at: nat)
      requires Valid()
      modifies this`position, this`nextIndex, this`nextOffset, this`activeIndex, this`pendingSeek, this`current
      ensures Valid() && pendingSeek == None && at == position
      ensures Abs() == Cursor(old(Abs()).bytes, if old(pendingSeek).Some? then old(pendingSeek).value else old(position))
    {
      if pendingSeek.Some? {
        ApplySeekTarget(pendingSeek.value);
      }
      return position;
    }

    // Opens a reader on the chunk at nextIndex, positioned at nextOffset, unless the store does not have it.
    method LoadNextChunk() returns (ok: bool)
      requires Valid() && store.Valid() && current.None? && nextIndex < |chunks|
      modifies this`activeIndex, this`current
      ensures Valid() && (ok <==> Stored(nextIndex))
      ensures if ok then current.Some? && activeIndex == Some(nextIndex) else current.None?
    {
      var source := chunks[nextIndex].source;
      var data: seq<byte>;
      match source {
        case BaseChunk(id) =>
          var have := store.HaveChunk(id);
          if !have { return false; }
          data := store.ReadChunk(id);
        case DiffEntry(j) =>
          data := diffFile.Read()[entries[j].fileOffset..entries[j].fileOffset + entries[j].size];
      }
      OpensChunk(data);
      hide Sum, Placed, SizedRight, SourceBytes, AtChunk;
      activeIndex := Some(nextIndex);
      current := Some(data[nextOffset..]);
      return true;
    }

    // The rest of the chunk at the position.
    lemma OpensChunk(data: seq<byte>)
      requires Valid() && current.None? && nextIndex < |chunks|
      requires data == SourceBytes(chunks[nextIndex].source, entries, Data())
      ensures nextOffset <= |data| && data[nextOffset..] == data[|data| - (|data| - nextOffset)..]
      ensures position + (|data| - nextOffset) == Sum(TableSizes(chunks)[..nextIndex]) + |data|
    {
      hide Sum, Placed;
    }

    lemma EofIsNextStart()
      requires Valid() && current == Some([])
      ensures position == Sum(TableSizes(chunks)[..activeIndex.value + 1])
    {
      SumTake(TableSizes(chunks), activeIndex.value);
    }

    method AdvanceAfterChunkEof()
      requires Valid() && current == Some([])
      modifies this`activeIndex, this`current, this`nextIndex, this`nextOffset
      ensures Valid() && current.None? && nextIndex == old(activeIndex.value) + 1
    {
      EofIsNextStart();
      nextIndex := activeIndex.value + 1;
      nextOffset := 0;
      activeIndex := None;
      current := None;
    }

    // One read: some bytes of the file at the position, at most capacity of them, and none only at
    // the end of the file.  The chunk reader decides how many of its bytes it delivers (budget).  It fails
    // during a seek, or at a chunk the store does not have; the position then stays.
    method Read(capacity: nat, budget: nat) returns (r: Result<seq<byte>, ReadError>)
      requires Valid() && store.Valid()
      modifies this`position, this`nextIndex, this`nextOffset, this`activeIndex, this`current
      ensures Valid() && pendingSeek == old(pendingSeek)
      ensures r == Err(SeekInProgress) <==> pendingSeek.Some?
      ensures r.Err? && pendingSeek.None? ==>
        r.error == ChunkMissing && current.None? && nextIndex < |chunks| && !Stored(nextIndex)
      ensures r.Err? ==> Abs() == old(Abs())
      ensures r.Ok? ==>
        |r.value| <= capacity && old(position) + |r.value| <= |Abs().bytes| &&
        Abs() == Cursor(old(Abs()).bytes, old(position) + |r.value|) &&
        r.value == Abs().bytes[old(position)..position]
      ensures r.Ok? && r.value == [] ==> capacity == 0 || position == |Abs().bytes|
    {
      hide Sum, Flatten, SizedRight, Placed, Streaming, AtChunk, TableBytes, Stored;
      TableLength();
      if pendingSeek.Some? { return Err(SeekInProgress); }
      if capacity == 0 { return Ok([]); }
      while true
        invariant Valid() && position == old(position) && pendingSeek == None
        decreases if current.Some? then |chunks| - activeIndex.value else |chunks| - nextIndex,
                  if current.Some? then 0 else 1
      {
        if current.Some? {
          if current.value != [] {
            r := Deliver(capacity, budget);
            return;
          }
          AdvanceAfterChunkEof();
          continue;
        }
        if position >= totalSize || nextIndex >= |chunks| {
          AtTheEnd();
          return Ok([]);
        }
        var loaded := LoadNextChunk();
        if !loaded { return Err(ChunkMissing); }
      }
    }

    method Deliver(capacity: nat, budget: nat) returns (r: Result<seq<byte>, ReadError>)
      requires Valid() && current.Some? && current.value != [] && 0 < capacity
      modifies this`position, this`current
      ensures Valid() && r.Ok? && 0 < |r.value| <= capacity && position == old(position) + |r.value|
      ensures position <= |Abs().bytes| && r.value == Abs().bytes[old(position)..position]
    {
      var n := Min(|current.value|, Min(capacity, Max(budget, 1)));
      StreamIsFile(n);
      var out := current.value[..n];
      current := Some(current.value[n..]);
      position := position + n;
      return Ok(out);
    }

    // What the open chunk reader has to deliver next is what the file holds at the position.
    lemma StreamIsFile(n: nat)
      requires Valid() && current.Some? && n <= |current.value|
      ensures position + n <= totalSize == |Abs().bytes|
      ensures Abs().bytes[position..position + n] == current.value[..n]
    {
      hide Sum, Flatten;
      TableLength();
      var bytes, a := TableBytes(chunks, entries, Data()), activeIndex.value;
      RestOfChunk(bytes, a, |bytes[a]| - |current.value|, position);
      PrefixOfSlice(Flatten(bytes), position, current.value, n);
    }

    lemma AtTheEnd()
      requires Valid() && current.None? && (position >= totalSize || nextIndex >= |chunks|)
      ensures position == totalSize
    {
      assert TableSizes(chunks)[..|chunks|] == TableSizes(chunks);
    }
  }

  lemma PrefixOfSlice(s: seq<byte>, o: nat, part: seq<byte>, n: nat)
    requires o + |part| <= |s| && s[o..o + |part|] == part && n <= |part|
    ensures s[o..o + n] == part[..n]
  {
  }

  // ---- opening readers ----

  // DiffChunkList::validate
  method Validate(diff: DiffChunkList) returns (ok: bool)
    ensures ok <==>
      (diff.chunkIds.Some? ==> |diff.chunkIds.value| == |diff.chunkIndices|) &&
      forall i, j :: 0 <= i < j < |diff.chunkIndices| ==> diff.chunkIndices[i] != diff.chunkIndices[j]
  {
    if diff.chunkIds.Some? && |diff.chunkIds.value| != |diff.chunkIndices| { return false; }
    var seen: set<nat> := {};
    for i := 0 to |diff.chunkIndices|
      invariant seen == set k | 0 <= k < i :: diff.chunkIndices[k]
      invariant forall j, k :: 0 <= j < k < i ==> diff.chunkIndices[j] != diff.chunkIndices[k]
    {
      if diff.chunkIndices[i] in seen { return false; }
      seen := seen + {diff.chunkIndices[i]};
    }
    return true;
  }

  datatype ReaderOptions = ReaderOptions(
    localMode: bool, fixedChunkSize: Option<nat>, baseChunkSizes: Option<seq<nat>>, diffChunkSizes: Option<seq<nat>>)

  function BaseSizes(chunks: map<ChunkId, seq<byte>>, list: ChunkList, options: ReaderOptions): Option<seq<nat>> {
    ResolvedSizes(chunks, list, options.localMode, options.fixedChunkSize, options.baseChunkSizes)
  }

  // The sizes found for the base list are those of its chunks.
  ghost predicate BaseSized(chunks: map<ChunkId, seq<byte>>, list: ChunkList, options: ReaderOptions) {
    BaseSizes(chunks, list, options).Some? && TrueSizesOf(list.body, BaseSizes(chunks, list, options).value)
  }

  // diff is what finalizing a writer on img left behind, and any sizes given are its sizes.
  ghost predicate Describes(img: Image, diff: DiffChunkList, baseIds: seq<ChunkId>, explicit: Option<seq<nat>>)
    reads diff.diffFile
  {
    img.baseIds == baseIds && SavedDiff(img, diff.chunkIndices, diff.diffFile.Read()) &&
    (diff.chunkIds.Some? ==> diff.chunkIds.value == IdsOf(DirtyChunks(img.dirty, diff.chunkIndices))) &&
    (explicit.Some? ==> explicit.value == TrueSizes(img, diff.chunkIndices))
  }

  // The sizes of a saved diff can be found: from the identifiers, given, or by inference.
  ghost predicate Sizable(img: Image, diff: DiffChunkList, options: ReaderOptions)
    reads diff.diffFile
  {
    diff.chunkIds.Some? || options.diffChunkSizes.Some? ||
    InferenceFits(diff.chunkIndices, img.baseSizes, options.fixedChunkSize, |diff.diffFile.Read()|)
  }

  // The table of chunks with_options builds: the sizes resolved, the entries cut, the length of the
  // diff file checked, and the entries laid over the base list.
  method BuildTable(store: NamedStore, list: ChunkList, diff: DiffChunkList, options: ReaderOptions, ghost img: Image)
    returns (r: Result<(seq<DiffEntryMeta>, seq<MergedChunkMeta>), Error>)
    ensures r.Ok? ==> BaseSizes(store.chunks, list, options).Some? && Placed(r.value.1) && OnlyFrom(r.value.1, list.body)
    ensures r.Ok? && BaseSized(store.chunks, list, options) ==> SizedRight(r.value.1, r.value.0, diff.diffFile.Read())
    ensures Describes(img, diff, list.body, options.diffChunkSizes) && BaseSized(store.chunks, list, options) ==>
      (r.Ok? <==> Sizable(img, diff, options)) &&
      (r.Ok? ==> Flatten(TableBytes(r.value.1, r.value.0, diff.diffFile.Read())) == img.Flat())
  {
    hide Sum, Flatten, Image.Flat, SavedDiff, RightBeforeTail, SizedRight, Placed, OnlyFrom, TableBytes, Overlay, Describes,
         InferenceFits, Inferred, Inferable, ResolvedSizes, TrueSizesOf;
    var explicit, fixedSize := options.diffChunkSizes, options.fixedChunkSize;
    ghost var known := Describes(img, diff, list.body, explicit) && BaseSized(store.chunks, list, options);
    var valid := Validate(diff);
    if known {
      KnownIsValid(img, diff, list.body, explicit);
      KnownBase(store.chunks, img, diff, list, options);
    }
    if !valid { return Err(InvalidParam); }

    var baseSizes := ResolveChunkSizes(store, list, options.localMode, fixedSize, options.baseChunkSizes);
    if baseSizes.Err? { return Err(baseSizes.error); }
    var data := diff.diffFile.Read();
    var indices := diff.chunkIndices;
    var resolved := ResolveDiffChunkSizes(indices, diff.chunkIds, baseSizes.value, fixedSize, explicit, |data|);
    if known { KnownSizing(img, diff, list.body, options, resolved); }
    if resolved.Err? { return Err(resolved.error); }
    var sizes := resolved.value;
    var entries := BuildDiffEntries(indices, diff.chunkIds, sizes);
    if entries.Err? { return Err(entries.error); }
    // validate_diff_file_len
    LastEntryEnd(entries.value, sizes);
    var end := if entries.value == [] then 0
               else entries.value[|indices| - 1].fileOffset + entries.value[|indices| - 1].size;
    if end != |data| { return Err(InvalidData); }

    var chunks := BuildMergedChunks(list.body, baseSizes.value, entries.value, indices, sizes, data);
    if known {
      KnownReadsBack(img, diff, list.body, fixedSize, explicit, sizes);
    }
    if chunks.Err? { return Err(chunks.error); }
    return Ok((entries.value, chunks.value));
  }

  // DiffChunkListReader::with_options.  On what a finalized writer left behind, and with the true sizes for
  // the base list, a reader opens exactly when the sizes of the diff can be found and the seek is in
  // range, and then stands for the writer's bytes.  All it asks of the store are chunks of the base list.
  method OpenDiffReader(store: NamedStore, list: ChunkList, diff: DiffChunkList, options: ReaderOptions, from: SeekFrom,
                        ghost img: Image)
    returns (r: Result<DiffChunkListReader, Error>)
    ensures r.Ok? ==>
      fresh(r.value) && r.value.pendingSeek == None && r.value.diffFile == diff.diffFile && r.value.store == store &&
      OnlyFrom(r.value.chunks, list.body) && BaseSizes(store.chunks, list, options).Some?
    ensures r.Ok? && BaseSized(store.chunks, list, options) ==> r.value.Valid()
    ensures Describes(img, diff, list.body, options.diffChunkSizes) && BaseSized(store.chunks, list, options) ==>
      (r.Ok? <==> Sizable(img, diff, options) && Cursor(img.Flat(), 0).Seek(from).Ok?) &&
      (r.Ok? ==> Cursor(img.Flat(), 0).Seek(from) == Ok(r.value.Abs()))
  {
    var table := BuildTable(store, list, diff, options, img);
    if table.Err? { return Err(table.error); }
    hide Sum, Flatten, Image.Flat, SizedRight, Placed, OnlyFrom, TableBytes, Describes, Sizable, BaseSized, BaseSizes;
    r := OpenAt(store, diff.diffFile, table.value.0, table.value.1, from);
  }

  // The last steps of both with_options: a reader on the table, moved to its first position.
  method OpenAt(store: NamedStore, diffFile: DiffFile, entries: seq<DiffEntryMeta>, chunks: seq<MergedChunkMeta>, from: SeekFrom)
    returns (r: Result<DiffChunkListReader, Error>)
    requires Placed(chunks)
    ensures r.Ok? <==> TargetIn(from, 0, Sum(TableSizes(chunks))).Ok?
    ensures r.Ok? ==>
      fresh(r.value) && r.value.pendingSeek == None && r.value.diffFile == diffFile && r.value.store == store &&
      r.value.chunks == chunks
    ensures SizedRight(chunks, entries, diffFile.Read()) ==>
      (r.Ok? <==> Cursor(Flatten(TableBytes(chunks, entries, diffFile.Read())), 0).Seek(from).Ok?) &&
      (r.Ok? ==>
        r.value.Valid() && Cursor(Flatten(TableBytes(chunks, entries, diffFile.Read())), 0).Seek(from) == Ok(r.value.Abs()))
  {
    hide Sum, Flatten, SizedRight, Placed, TableBytes, TableSizes;
    var reader := new DiffChunkListReader(store, diffFile, entries, chunks);
    var target := reader.CalcSeekTarget(from);
    if target.Err? { return Err(target.error); }
    reader.ApplySeekTarget(target.value);
    return Ok(reader);
  }

  lemma KnownBase(chunks: map<ChunkId, seq<byte>>, img: Image, diff: DiffChunkList, list: ChunkList, options: ReaderOptions)
    requires Describes(img, diff, list.body, options.diffChunkSizes) && BaseSized(chunks, list, options)
    ensures BaseSizes(chunks, list, options) == Some(img.baseSizes) && |img.baseSizes| == |list.body|
  {
    assert img.baseSizes == Sizes(Contents(list.body));
  }

  lemma KnownSizing(img: Image, diff: DiffChunkList, baseIds: seq<ChunkId>, options: ReaderOptions, r: Result<seq<nat>, Error>)
    requires Describes(img, diff, baseIds, options.diffChunkSizes)
    requires diff.chunkIds.Some? ==>
      (r.Ok? <==> forall id :: id in diff.chunkIds.value ==> id.mix) &&
      (r.Ok? ==> r.value == Sizes(Contents(diff.chunkIds.value)))
    requires diff.chunkIds.None? && options.diffChunkSizes.Some? ==> r == Ok(options.diffChunkSizes.value)
    requires diff.chunkIds.None? && options.diffChunkSizes.None? ==>
      (r.Ok? <==> Inferable(diff.chunkIndices, img.baseSizes, options.fixedChunkSize)) &&
      (r.Ok? ==> Inferred(r.value, diff.chunkIndices, img.baseSizes, options.fixedChunkSize, |diff.diffFile.Read()|))
    ensures r.Ok? ==> |r.value| == |diff.chunkIndices|
    ensures r.Ok? && Sum(r.value) == |diff.diffFile.Read()| <==> Sizable(img, diff, options)
  {
    hide Sum, Flatten, SavedDiff, RightBeforeTail, TrueSizes;
    FinalSizes(img, diff, baseIds, options.diffChunkSizes);
    if diff.chunkIds.None? && options.diffChunkSizes.None? && r.Ok? {
      InferredAccepted(r.value, diff.chunkIndices, img.baseSizes, options.fixedChunkSize, |diff.diffFile.Read()|);
    }
  }

  lemma KnownReadsBack(img: Image, diff: DiffChunkList, baseIds: seq<ChunkId>,
                       fixedSize: Option<nat>, explicit: Option<seq<nat>>, sizes: seq<nat>)
    requires Describes(img, diff, baseIds, explicit)
    requires |sizes| == |diff.chunkIndices| && Sum(sizes) == |diff.diffFile.Read()|
    requires diff.chunkIds.Some? ==> sizes == Sizes(Contents(diff.chunkIds.value))
    requires diff.chunkIds.None? && explicit.Some? ==> sizes == explicit.value
    requires diff.chunkIds.None? && explicit.None? ==>
      Inferred(sizes, diff.chunkIndices, img.baseSizes, fixedSize, |diff.diffFile.Read()|)
    ensures var indices, data := diff.chunkIndices, diff.diffFile.Read();
            var laid := Overlay(Contents(baseIds), indices, Segments(data, sizes, |indices|), |indices|);
            laid.Some? && Flatten(laid.value) == img.Flat()
  {
    hide Sum, Flatten, Image.Flat, SavedDiff, RightBeforeTail, Overlay, TrueSizes, Inferred;
    if diff.chunkIds.Some? || explicit.Some? {
      FinalSizes(img, diff, baseIds, explicit);
    } else {
      InferredIsRight(img, diff.chunkIndices, diff.diffFile.Read(), sizes, fixedSize);
    }
    ReadBackIsFlat(img, diff.chunkIndices, diff.diffFile.Read(), sizes);
  }

  lemma KnownIsValid(img: Image, diff: DiffChunkList, baseIds: seq<ChunkId>, explicit: Option<seq<nat>>)
    requires Describes(img, diff, baseIds, explicit)
    ensures Ascending(diff.chunkIndices)
    ensures diff.chunkIds.Some? ==> |diff.chunkIds.value| == |diff.chunkIndices|
  {
    SavedFacts(img, diff.chunkIndices, diff.diffFile.Read());
  }

  lemma FinalSizes(img: Image, diff: DiffChunkList, baseIds: seq<ChunkId>, explicit: Option<seq<nat>>)
    requires Describes(img, diff, baseIds, explicit)
    ensures var t := TrueSizes(img, diff.chunkIndices);
            RightBeforeTail(img, diff.chunkIndices, diff.diffFile.Read(), t) && Sum(t) == |diff.diffFile.Read()| &&
            |t| == |diff.chunkIndices| && (explicit.Some? ==> explicit.value == t) &&
            (diff.chunkIds.Some? ==>
              (forall id :: id in diff.chunkIds.value ==> id.mix) && Sizes(Contents(diff.chunkIds.value)) == t)
  {
    TrueSizesAreRight(img, diff.chunkIndices, diff.diffFile.Read());
    if diff.chunkIds.Some? {
      assert Contents(diff.chunkIds.value) == DirtyChunks(img.dirty, diff.chunkIndices);
    }
  }

  lemma LastEntryEnd(entries: seq<DiffEntryMeta>, sizes: seq<nat>)
    requires |entries| == |sizes|
    requires forall i :: 0 <= i < |sizes| ==> entries[i].size == sizes[i] && entries[i].fileOffset == Sum(sizes[..i])
    ensures Sum(sizes) == if entries == [] then 0 else entries[|sizes| - 1].fileOffset + entries[|sizes| - 1].size
  {
  }

  // ChunkListReader::with_options: opens exactly when the sizes can be found and the seek is in range of
  // their total; with the true sizes the reader stands for the bytes of the list.
  method OpenChunkListReader(store: NamedStore, list: ChunkList, options: ReaderOptions, from: SeekFrom)
    returns (r: Result<DiffChunkListReader, Error>)
    ensures r.Ok? <==>
      BaseSizes(store.chunks, list, options).Some? &&
      TargetIn(from, 0, Sum(BaseSizes(store.chunks, list, options).value)).Ok?
    ensures r.Ok? ==>
      fresh(r.value) && fresh(r.value.diffFile) && r.value.pendingSeek == None && r.value.store == store &&
      OnlyFrom(r.value.chunks, list.body)
    ensures BaseSized(store.chunks, list, options) ==>
      (r.Ok? <==> Cursor(ListBytes(list.body), 0).Seek(from).Ok?) &&
      (r.Ok? ==> r.value.Valid() && Cursor(ListBytes(list.body), 0).Seek(from) == Ok(r.value.Abs()))
  {
    var sizes := ResolveChunkSizes(store, list, options.localMode, options.fixedChunkSize, options.baseChunkSizes);
    if sizes.Err? { return Err(sizes.error); }
    var noDiff := new DiffFile();
    assert Cuts([], [], [], noDiff.Read());
    ResolvedLength(store.chunks, list, options.localMode, options.fixedChunkSize, options.baseChunkSizes);
    var chunks := BuildMergedChunks(list.body, sizes.value, [], [], [], noDiff.Read());
    hide Sum, Flatten, SizedRight, Placed, OnlyFrom, TableBytes, TrueSizesOf, ResolvedSizes;
    r := OpenAt(store, noDiff, [], chunks.value, from);
  }
}
