// Turning a finished file buffer into stored content: the plain layout of a whole diff file, the
// overlay layout of a merged chunk list, and putting the chunks of either into the named store.
module ContentLayouts {
  import opened Bytes
  import opened ChunkStore
  import opened ChunkSizes
  import opened SortedKeys
  import opened FileImage
  import opened DiffWriter
  import opened FileBuffer

  const CHUNK_DEFAULT_SIZE: nat := 1024 * 1024 * 32

  datatype ChunkSegment = ChunkSegment(chunkId: ChunkId, offset: nat, size: nat)

  datatype ContentLayout =
    | Single(segment: ChunkSegment)
    | ListOf(segments: seq<ChunkSegment>, list: ChunkList)
  {
    function Segments(): seq<ChunkSegment> {
      if Single? then [segment] else segments
    }
  }

  function Ids(segments: seq<ChunkSegment>): (ids: seq<ChunkId>)
    ensures |ids| == |segments|
  {
    seq(|segments|, i requires 0 <= i < |segments| => segments[i].chunkId)
  }

  function SizesOf(segments: seq<ChunkSegment>): (sizes: seq<nat>)
    ensures |sizes| == |segments|
  {
    seq(|segments|, i requires 0 <= i < |segments| => segments[i].size)
  }

  // The segments lie one after the other, each as long as its chunk, and spell out content.
  ghost predicate Covers(segments: seq<ChunkSegment>, content: seq<byte>) {
    ListBytes(Ids(segments)) == content &&
    (forall i :: 0 <= i < |segments| ==> segments[i].size == |segments[i].chunkId.content|) &&
    (forall i :: 0 <= i < |segments| ==> segments[i].offset == Sum(SizesOf(segments)[..i]))
  }

  lemma CoversBytes(segments: seq<ChunkSegment>, content: seq<byte>)
    requires Covers(segments, content)
    ensures ListBytes(Ids(segments)) == content
  {
  }

  lemma CoversPush(segments: seq<ChunkSegment>, content: seq<byte>, id: ChunkId)
    requires Covers(segments, content) && Sum(SizesOf(segments)) == |content|
    ensures var more := segments + [ChunkSegment(id, |content|, |id.content|)];
            Covers(more, content + id.content) && Sum(SizesOf(more)) == |content + id.content|
  {
    hide Sum, Flatten;
    var last := ChunkSegment(id, |content|, |id.content|);
    var more := segments + [last];
    var ids, sizes, sizes2 := Ids(segments), SizesOf(segments), SizesOf(more);
    var chunks := Contents(ids);
    assert Ids(more) == ids + [id];
    assert Contents(ids + [id]) == chunks + [id.content];
    FlattenPush(chunks, id.content);
    assert sizes2 == sizes + [last.size];
    SumPush(sizes, last.size);
    forall i | 0 <= i < |more| ensures more[i].offset == Sum(sizes2[..i]) {
      assert sizes2[..i] == sizes[..i];
      assert sizes[..|sizes|] == sizes;
    }
  }

  lemma CoversOne(data: seq<byte>)
    ensures Covers([ChunkSegment(MixId(data), 0, |data|)], data)
    ensures Covers([], []) && Sum(SizesOf([])) == 0
  {
    CoversPush([], [], MixId(data));
    assert [] + data == data;
    assert [] + [ChunkSegment(MixId(data), 0, |data|)] == [ChunkSegment(MixId(data), 0, |data|)];
  }

  // Chunks of the default size, except that the last of the file may be shorter.
  ghost predicate DefaultSized(segments: seq<ChunkSegment>, remaining: nat) {
    forall i :: 0 <= i < |segments| ==>
      segments[i].chunkId.mix && segments[i].size <= CHUNK_DEFAULT_SIZE &&
      (i < |segments| - 1 || remaining > 0 ==> segments[i].size == CHUNK_DEFAULT_SIZE)
  }

  // calculate_content_layout: cut the diff file into chunks of the default size.  A file of one chunk gets an
  // identifier of the default chunk type, which is a mix type as well.
  method CalculateContentLayout(data: seq<byte>) returns (r: Result<ContentLayout, Error>)
    ensures r.Ok? && Covers(r.value.Segments(), data)
    ensures forall i :: 0 <= i < |r.value.Segments()| ==>
      r.value.Segments()[i].size <= CHUNK_DEFAULT_SIZE && r.value.Segments()[i].chunkId.mix
    ensures r.value.Single? <==> |data| <= CHUNK_DEFAULT_SIZE
    ensures r.value.ListOf? ==>
      r.value.list == ChunkList(|data|, Ids(r.value.segments)) &&
      forall i :: 0 <= i < |r.value.segments| - 1 ==> r.value.segments[i].size == CHUNK_DEFAULT_SIZE
  {
    CoversOne(data);
    hide Sum, Flatten, Covers;
    if |data| <= CHUNK_DEFAULT_SIZE {
      return Ok(Single(ChunkSegment(MixId(data), 0, |data|)));
    }
    var segments: seq<ChunkSegment> := [];
    var remaining: nat, offset: nat := |data|, 0;
    while remaining > 0
      invariant offset + remaining == |data|
      invariant Covers(segments, data[..offset]) && Sum(SizesOf(segments)) == offset
      invariant DefaultSized(segments, remaining)
    {
      var size := Min(remaining, CHUNK_DEFAULT_SIZE);
      var piece := data[offset..offset + size];
      CoversPush(segments, data[..offset], MixId(piece));
      PrefixJoin(data, offset, size);
      segments := segments + [ChunkSegment(MixId(piece), offset, size)];
      remaining := remaining - size;
      offset := offset + size;
    }
    assert data[..offset] == data;
    var list := FromChunkList(Ids(segments));
    CoversBytes(segments, data);
    return Ok(ListOf(segments, list.value));
  }

  // Segments that list the given chunks with the given sizes, one after the other.
  ghost predicate Lists(segments: seq<ChunkSegment>, ids: seq<ChunkId>, sizes: seq<nat>) {
    Ids(segments) == ids && SizesOf(segments) == sizes &&
    forall i :: 0 <= i < |segments| ==> segments[i].offset == Sum(sizes[..i])
  }

  // With the sizes of the chunks they spell out the bytes of the list.
  lemma ListsCovers(segments: seq<ChunkSegment>, ids: seq<ChunkId>, sizes: seq<nat>)
    requires Lists(segments, ids, sizes) && TrueSizesOf(ids, sizes)
    ensures Covers(segments, ListBytes(ids))
  {
    hide Sum, Flatten;
    forall i | 0 <= i < |segments| ensures segments[i].size == |segments[i].chunkId.content| {
      assert Ids(segments)[i] == segments[i].chunkId && SizesOf(segments)[i] == segments[i].size;
    }
  }

  // The loop of overlay_content_layout.
  method ListSegments(ids: seq<ChunkId>, sizes: seq<nat>) returns (segments: seq<ChunkSegment>)
    requires |ids| == |sizes|
    ensures Lists(segments, ids, sizes)
  {
    segments := [];
    var offset: nat := 0;
    for i := 0 to |sizes|
      invariant |segments| == i && offset == Sum(sizes[..i])
      invariant forall k :: 0 <= k < i ==> segments[k] == ChunkSegment(ids[k], Sum(sizes[..k]), sizes[k])
    {
      SumTake(sizes, i);
      segments := segments + [ChunkSegment(ids[i], offset, sizes[i])];
      offset := offset + sizes[i];
    }
  }

  // overlay_content_layout: the merged chunk list of an overlay buffer, with running offsets.
  method OverlayContentLayout(list: ChunkList, sizes: seq<nat>) returns (r: Result<ContentLayout, Error>)
    ensures r.Ok? <==> |list.body| == |sizes| && list.body != []
    ensures r.Ok? ==>
      Lists(r.value.Segments(), list.body, sizes) &&
      (r.value.ListOf? ==> r.value.list == list) && (r.value.Single? <==> |list.body| == 1)
    ensures r.Ok? && TrueSizesOf(list.body, sizes) ==> Covers(r.value.Segments(), ListBytes(list.body))
  {
    if |list.body| != |sizes| { return Err(InvalidData); }
    if list.body == [] { return Err(InvalidData); }
    var segments := ListSegments(list.body, sizes);
    assert |segments| == |list.body|;
    hide Sum, Flatten, Covers, Lists, TrueSizesOf;
    if TrueSizesOf(list.body, sizes) { ListsCovers(segments, list.body, sizes); }
    if |segments| == 1 {
      assert segments == [segments[0]];
      return Ok(Single(segments[0]));
    }
    return Ok(ListOf(segments, list));
  }

  // A segment names the bytes that lie at its offset in the file.
  ghost predicate InFile(s: ChunkSegment, data: seq<byte>) {
    s.offset + s.size <= |data| && s.chunkId == MixId(data[s.offset..s.offset + s.size])
  }

  // put_chunks_to_store and put_overlay_dirty_chunks_to_store: chunks the store already has are
  // skipped, so the file cursor is moved before a read whenever it is not at the segment.
  method PutSegments(store: NamedStore, data: seq<byte>, segments: seq<ChunkSegment>)
    requires store.Valid()
    requires forall i :: 0 <= i < |segments| ==> InFile(segments[i], data)
    modifies store
    ensures store.Valid()
    ensures forall id :: id in store.chunks <==> id in old(store.chunks) || id in Ids(segments)
  {
    var cursor: nat := 0;
    for i := 0 to |segments|
      invariant cursor <= |data| && store.Valid()
      invariant forall id :: id in store.chunks <==> id in old(store.chunks) || id in Ids(segments)[..i]
    {
      var s := segments[i];
      assert InFile(s, data);
      assert Ids(segments)[..i + 1] == Ids(segments)[..i] + [s.chunkId];
      var have := store.HaveChunk(s.chunkId);
      if !have {
        if cursor != s.offset { cursor := s.offset; }
        var buf := data[cursor..cursor + s.size];
        store.PutChunk(s.chunkId, buf);
        cursor := cursor + s.size;
      }
    }
    assert Ids(segments)[..|segments|] == Ids(segments);
  }

  // The segments of a plain layout are those of the file itself.
  lemma CoveredInFile(segments: seq<ChunkSegment>, data: seq<byte>, i: nat)
    requires Covers(segments, data) && i < |segments| && segments[i].chunkId.mix
    ensures InFile(segments[i], data)
  {
    var c := Contents(Ids(segments));
    assert Sizes(c) == SizesOf(segments);
    FlattenSlice(c, i);
  }

  // ---- finishing a buffer ----

  // overlay_writer_state: the saved state, with sizes filled in for a buffer never flushed.  Base sizes that
  // contradict the lengths embedded in the base list are refused.
  function OverlayWriterState(fb: FileBufferRecord, d: FileBufferDiffState): (r: Result<WriterState, Error>)
    ensures r.Ok? ==> r.value.diffFile == fb.diffFile
  {
    var embedded := MixSizes(fb.baseIds);
    if d.baseChunkSizes == [] && embedded.None? then Err(InvalidData)
    else
      var base := if d.baseChunkSizes == [] then embedded.value else d.baseChunkSizes;
      var merged := if d.mergedChunkSizes == [] then base else d.mergedChunkSizes;
      var total := if d.totalSize > 0 then d.totalSize else Sum(merged);
      if FromChunkList(fb.baseIds).Ok? && FromChunkList(fb.baseIds).value.totalSize != Sum(base) then Err(InvalidData)
      else
        Ok(WriterState(fb.baseList, fb.diffFile, d.chunkIndices, d.diffChunkSizes, base, merged,
                       Min(d.position, total), total, d.autoCache, d.localMode,
                       d.fixedChunkSize, d.appendMergeLast))
  }

  // The record, its sizes filled in, and its diff file are what is saved for img.
  ghost predicate StandsFor(fb: FileBufferRecord, img: Image)
    reads fb, fb.diffFile
  {
    var s := OverlayWriterState(fb, fb.diffState);
    s.Ok? && img.Settled() && Accepted(s.value, fb.diffFile.Read()) &&
    ImageOf(fb.baseIds, s.value, fb.diffFile.Read()) == img &&
    Persists(s.value.chunkIndices, s.value.diffChunkSizes, fb.diffFile.Read(), img.dirty)
  }

  lemma FlushedSizes(fb: FileBufferRecord, w: DiffChunkListWriter)
    requires w.Valid() && Holds(fb, w)
    ensures var d := fb.diffState;
            |d.baseChunkSizes| == |fb.baseIds| <= |d.mergedChunkSizes| && Sum(d.baseChunkSizes) == |ListBytes(fb.baseIds)| &&
            d.totalSize == Sum(d.mergedChunkSizes) && d.position <= d.totalSize
  {
    BaseImage(w.baseIds, w.baseSizes);
  }

  // What a flushed writer saved needs no filling in.
  lemma FlushedStateIsComplete(fb: FileBufferRecord, w: DiffChunkListWriter)
    requires w.Valid() && Holds(fb, w)
    ensures OverlayWriterState(fb, fb.diffState) == Ok(WriterStateFromDiffState(fb, fb.diffState))
  {
    hide DiffChunkListWriter.Valid, Holds, Sum, Flatten, FromChunkList, ListBytes;
    FlushedSizes(fb, w);
    if fb.diffState.baseChunkSizes == [] {
      assert fb.baseIds == [] && Sizes(Contents(fb.baseIds)) == [];
    }
  }

  lemma FlushedStandsFor(fb: FileBufferRecord, w: DiffChunkListWriter)
    requires w.Valid() && Holds(fb, w)
    ensures StandsFor(fb, w.Img())
  {
    hide Sum, Flatten, Image.Flat;
    FlushedStateIsComplete(fb, w);
    SavedReopens(w, WriterStateFromDiffState(fb, fb.diffState));
  }

  // A buffer never written to stands for its base list.
  lemma UntouchedStandsFor(fb: FileBufferRecord)
    requires !HasWriterState(fb.diffState) && fb.diffFile.Read() == []
    requires forall id :: id in fb.baseIds ==> id.mix
    ensures var sizes := Sizes(Contents(fb.baseIds));
            StandsFor(fb, Image(fb.baseIds, sizes, sizes, map[])) &&
            Image(fb.baseIds, sizes, sizes, map[]).Flat() == ListBytes(fb.baseIds)
  {
    var sizes := Sizes(Contents(fb.baseIds));
    BaseImage(fb.baseIds, sizes);
    NothingPersists();
    hide Image.Flat, Flatten, Persists;
    assert OverlayWriterState(fb, fb.diffState).Ok?;
  }

  lemma NothingPersists()
    ensures Persists([], [], [], map[])
  {
    var nothing: map<nat, seq<byte>> := map[];
    assert nothing.Keys == {};
    assert DirtyChunks(nothing, []) == [];
  }

  // put_overlay_dirty_chunks_to_store, for the segments of the rebuilt state.
  method StoreDirty(store: NamedStore, fb: FileBufferRecord, s: WriterState, dirty: seq<DirtyChunk>)
    requires store.Valid() && |s.chunkIndices| == |s.diffChunkSizes| && Sum(s.diffChunkSizes) <= |fb.diffFile.Read()|
    requires dirty == DirtySegments(s.chunkIndices, s.diffChunkSizes, fb.diffFile.Read())
    modifies store
    ensures store.Valid()
    ensures forall id :: id in store.chunks <==> id in old(store.chunks) || id in Ids(DirtyFileSegments(dirty))
  {
    hide Sum;
    var segments := DirtyFileSegments(dirty);
    forall j | 0 <= j < |segments| ensures InFile(segments[j], fb.diffFile.Read()) {
      DirtySegmentInFile(s.chunkIndices, s.diffChunkSizes, fb.diffFile.Read(), j);
    }
    PutSegments(store, fb.diffFile.Read(), segments);
  }

  lemma StandsForFacts(fb: FileBufferRecord, img: Image)
    requires StandsFor(fb, img)
    ensures var s := OverlayWriterState(fb, fb.diffState);
            s.Ok? && Accepted(s.value, fb.diffFile.Read()) && s.value.mergedChunkSizes == img.merged &&
            ImageOf(fb.baseIds, s.value, fb.diffFile.Read()) == img && HasMergedList(img, s.value.totalSize)
    ensures forall i :: 0 <= i < |img.merged| && i !in img.dirty ==> i < |img.baseIds|
    ensures TrueSizesOf(MergedIds(img), img.merged) && ListBytes(MergedIds(img)) == img.Flat()
  {
    hide Sum, Flatten, Image.Flat, OverlayWriterState;
    SettledHasMergedList(img);
    MergedIdsKeepBytes(img);
  }

  // With the base and the dirty segments stored, the merged list can be fetched.
  lemma LayoutIsReadable(store: NamedStore, fb: FileBufferRecord, img: Image, ids: seq<ChunkId>)
    requires StandsFor(fb, img) && store.Valid() && store.Has(fb.baseIds)
    requires forall i :: 0 <= i < |img.merged| && i !in img.dirty ==> i < |img.baseIds|
    requires ids == MergedIds(img)
    requires var s := OverlayWriterState(fb, fb.diffState).value;
             forall id :: id in Ids(DirtyFileSegments(DirtySegments(s.chunkIndices, s.diffChunkSizes, fb.diffFile.Read()))) ==>
               id in store.chunks
    ensures store.Has(ids) && Fetch(store.chunks, ids) == img.Flat()
  {
    hide Sum, Flatten, Image.Flat, OverlayWriterState, MergedIds;
    var s := OverlayWriterState(fb, fb.diffState).value;
    var dirty := DirtySegments(s.chunkIndices, s.diffChunkSizes, fb.diffFile.Read());
    MergedIdsStored(img, s.chunkIndices, s.diffChunkSizes, fb.diffFile.Read(), Ids(DirtyFileSegments(dirty)));
    MergedIdsKeepBytes(img);
    FetchIsListBytes(store.chunks, ids);
  }

  function DirtyFileSegments(dirty: seq<DirtyChunk>): (segments: seq<ChunkSegment>)
    ensures |segments| == |dirty|
  {
    seq(|dirty|, j requires 0 <= j < |dirty| =>
      ChunkSegment(dirty[j].chunkId, dirty[j].diffFileOffset, dirty[j].chunkSize))
  }

  lemma DirtySegmentInFile(indices: seq<nat>, sizes: seq<nat>, data: seq<byte>, j: nat)
    requires j < |indices| == |sizes| && Sum(sizes) <= |data|
    ensures var d := DirtySegments(indices, sizes, data)[j];
            InFile(ChunkSegment(d.chunkId, d.diffFileOffset, d.chunkSize), data)
  {
    SumSplit(sizes, j);
  }

  // Every chunk of the merged list is a base chunk or one of the dirty segments.
  lemma MergedIdsStored(img: Image, indices: seq<nat>, sizes: seq<nat>, data: seq<byte>, dirtyIds: seq<ChunkId>)
    requires img.Settled() && Persists(indices, sizes, data, img.dirty) && Sum(sizes) == |data|
    requires |indices| == |sizes| == |dirtyIds|
    requires forall j :: 0 <= j < |dirtyIds| ==> dirtyIds[j] == MixId(Segment(data, sizes, j))
    ensures forall i :: 0 <= i < |img.merged| ==> MergedIds(img)[i] in img.baseIds || MergedIds(img)[i] in dirtyIds
  {
    assert forall i :: 0 <= i < |img.merged| && i !in img.dirty ==> img.Clean(i);
    forall i | 0 <= i < |img.merged| && i in img.dirty ensures MergedIds(img)[i] in dirtyIds {
      assert i in indices;
      var j :| 0 <= j < |indices| && indices[j] == i;
      SavedSegment(img.dirty, indices, sizes, data, j);
      assert dirtyIds[j] == MergedIds(img)[i];
    }
  }

  // build_overlay_finalize_context succeeds on the record.
  ghost predicate Buildable(fb: FileBufferRecord)
    reads fb, fb.diffFile
  {
    var s := OverlayWriterState(fb, fb.diffState);
    s.Ok? && Accepted(s.value, fb.diffFile.Read()) && s.value.mergedChunkSizes != [] &&
    HasMergedList(ImageOf(fb.baseIds, s.value, fb.diffFile.Read()), s.value.totalSize)
  }

  ghost predicate Built(fb: FileBufferRecord, layout: ContentLayout, s: WriterState, dirty: seq<DirtyChunk>)
    reads fb, fb.diffFile
  {
    OverlayWriterState(fb, fb.diffState) == Ok(s) && Accepted(s, fb.diffFile.Read()) &&
    dirty == DirtySegments(s.chunkIndices, s.diffChunkSizes, fb.diffFile.Read()) &&
    var img := ImageOf(fb.baseIds, s, fb.diffFile.Read());
    HasMergedList(img, s.totalSize) && Lists(layout.Segments(), MergedIds(img), img.merged) &&
    (TrueSizesOf(MergedIds(img), img.merged) ==> Covers(layout.Segments(), ListBytes(MergedIds(img))))
  }

  // build_overlay_finalize_context: the layout of the merged list, and the dirty chunks with their place in the
  // diff file.
  method BuildOverlay(fb: FileBufferRecord) returns (r: Result<(ContentLayout, WriterState, seq<DirtyChunk>), Error>)
    ensures r.Ok? <==> Buildable(fb)
    ensures r.Ok? ==> Built(fb, r.value.0, r.value.1, r.value.2)
  {
    hide Sum, Flatten, Covers, TrueSizesOf, Lists, IndicesFit, HasMergedList, OverlayWriterState, Restored;
    var state := OverlayWriterState(fb, fb.diffState);
    if state.Err? { return Err(state.error); }
    var s := state.value;
    var rebuilt := RebuildMergedState(fb.baseIds, s);
    if rebuilt.Err? { return Err(rebuilt.error); }
    var m := rebuilt.value;
    MergedListLength(fb, s);
    hide Accepted, ImageOf, MergedIds;
    var layout := OverlayContentLayout(m.list, m.mergedChunkSizes);
    if layout.Err? { return Err(layout.error); }
    return Ok((layout.value, s, m.dirtyChunks));
  }

  lemma MergedListLength(fb: FileBufferRecord, s: WriterState)
    requires Accepted(s, fb.diffFile.Read())
    requires HasMergedList(ImageOf(fb.baseIds, s, fb.diffFile.Read()), s.totalSize)
    ensures var img := ImageOf(fb.baseIds, s, fb.diffFile.Read());
            img.merged == s.mergedChunkSizes && |MergedIds(img)| == |img.merged|
  {
  }

  // The overlay branch of finishing a buffer, whatever its state: only the dirty chunks are stored.  If the
  // record stands for a file and the base chunks are stored, the layout is readable and is the file.
  method FinalizeOverlay(store: NamedStore, fb: FileBufferRecord, ghost img: Image)
    returns (r: Result<ContentLayout, Error>)
    requires store.Valid()
    modifies store
    ensures store.Valid() && (r.Err? ==> store.chunks == old(store.chunks))
    ensures r.Ok? <==> Buildable(fb)
    ensures StandsFor(fb, img) ==>
      (r.Ok? <==> img.merged != []) && (r.Ok? ==> Covers(r.value.Segments(), img.Flat()))
    ensures StandsFor(fb, img) && r.Ok? && old(store.Has(fb.baseIds)) ==>
      store.Has(Ids(r.value.Segments())) && Fetch(store.chunks, Ids(r.value.Segments())) == img.Flat()
  {
    hide Sum, Flatten, Image.Flat, Covers, TrueSizesOf, IndicesFit, HasMergedList, OverlayWriterState, Restored, MergedIds,
         ListBytes;
    if StandsFor(fb, img) { StandsForFacts(fb, img); }
    hide StandsFor;
    var built := BuildOverlay(fb);
    if built.Err? { return Err(built.error); }
    var (layout, s, dirty) := built.value;
    StoreDirty(store, fb, s, dirty);
    hide Lists, Accepted;
    if StandsFor(fb, img) && old(store.Has(fb.baseIds)) {
      LayoutIsReadable(store, fb, img, Ids(layout.Segments()));
    }
    return Ok(layout);
  }

  // With no base list every chunk is dirty, so the diff file is the file.
  lemma DiffFileIsFile(img: Image, indices: seq<nat>, sizes: seq<nat>, data: seq<byte>)
    requires img.Settled() && img.baseIds == [] && Persists(indices, sizes, data, img.dirty)
    ensures data == img.Flat()
  {
    EveryChunkIsDirty(img, indices);
    hide Image.Settled, Image.Chunk, Sorted, Flatten;
    forall i | 0 <= i < |img.merged| ensures DirtyChunks(img.dirty, indices)[i] == img.Chunk(i) {
      DirtyContent(img, i);
    }
    assert DirtyChunks(img.dirty, indices) == img.Chunks();
  }

  lemma EveryChunkIsDirty(img: Image, indices: seq<nat>)
    requires img.Settled() && img.baseIds == [] && indices == Sorted(img.dirty.Keys)
    ensures |indices| == |img.merged| && forall i :: 0 <= i < |indices| ==> indices[i] == i && i in img.dirty
  {
    forall i | 0 <= i < |img.merged| ensures i in img.dirty {
      assert i !in img.dirty ==> img.Clean(i);
    }
    assert forall k :: k in indices <==> k in img.dirty;
    hide Image.Settled, Sorted;
    AllIndices(indices, |img.merged|);
  }

  lemma DirtyContent(img: Image, i: nat)
    requires img.Settled() && i in img.dirty
    ensures i < |img.merged| && img.Chunk(i) == img.dirty[i]
  {
    DirtyChunkIsContent(img, i);
  }

  // The plain branch: without a base list the whole diff file is cut into chunks and stored.
  method FinalizePlain(store: NamedStore, fb: FileBufferRecord, ghost w: DiffChunkListWriter)
    returns (r: Result<ContentLayout, Error>)
    requires store.Valid() && w.Valid() && Holds(fb, w) && fb.baseIds == []
    modifies store
    ensures r.Ok? && Covers(r.value.Segments(), w.Abs().bytes)
    ensures store.Valid() && store.Has(Ids(r.value.Segments()))
    ensures Fetch(store.chunks, Ids(r.value.Segments())) == w.Abs().bytes
  {
    var data := fb.diffFile.Read();
    DiffFileIsFile(w.Img(), fb.diffState.chunkIndices, fb.diffState.diffChunkSizes, data);
    r := CalculateContentLayout(data);
    var segments := r.value.Segments();
    forall i | 0 <= i < |segments| ensures InFile(segments[i], data) {
      CoveredInFile(segments, data, i);
    }
    PutSegments(store, data, segments);
    FetchIsListBytes(store.chunks, Ids(segments));
  }
}
