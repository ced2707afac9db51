// The copy-on-write file writer: DiffChunkListWriter.
module DiffWriter {
  import opened Bytes
  import opened ChunkStore
  import opened ChunkSizes
  import opened SortedKeys
  import opened FileImage
  import opened AppendSizes

  // What close() saves next to the diff file.
  datatype WriterState = WriterState(
    baseList: string, diffFile: DiffFile,
    chunkIndices: seq<nat>, diffChunkSizes: seq<nat>,
    baseChunkSizes: seq<nat>, mergedChunkSizes: seq<nat>,
    position: nat, totalSize: nat,
    autoCache: bool, localMode: bool, fixedChunkSize: Option<nat>, appendMergeLast: bool)

  datatype WriterOptions = WriterOptions(
    autoCache: bool, localMode: bool, fixedChunkSize: Option<nat>, baseChunkSizes: Option<seq<nat>>, appendMergeLast: bool)

  datatype DiffChunkList = DiffChunkList(
    baseList: string, diffFile: DiffFile, chunkIndices: seq<nat>, chunkIds: Option<seq<ChunkId>>)

  datatype PersistedDirtyChunks = PersistedDirtyChunks(
    chunkIndices: seq<nat>, diffChunkSizes: seq<nat>,
    dirtyIds: map<nat, ChunkId>, diffChunkIds: seq<ChunkId>)

  datatype DirtyChunk = DirtyChunk(chunkIndex: nat, diffFileOffset: nat, chunkSize: nat, chunkId: ChunkId)

  datatype MergedState = MergedState(
    list: ChunkList, mergedChunkSizes: seq<nat>, dirtyChunks: seq<DirtyChunk>)

  // ---- what is saved for an image ----

  // The saved indices, sizes and diff file are exactly the dirty chunks in index order.
  ghost predicate Persists(indices: seq<nat>, sizes: seq<nat>, data: seq<byte>, dirty: map<nat, seq<byte>>) {
    indices == Sorted(dirty.Keys) &&
    sizes == Sizes(DirtyChunks(dirty, indices)) &&
    data == Flatten(DirtyChunks(dirty, indices))
  }

  // Exactly the checks open_from_state makes on a saved state and its diff file.
  ghost predicate Accepted(s: WriterState, data: seq<byte>) {
    s.position <= s.totalSize && Sum(s.mergedChunkSizes) == s.totalSize &&
    |s.chunkIndices| == |s.diffChunkSizes| && Sum(s.diffChunkSizes) == |data| &&
    IndicesFit(s.chunkIndices, s.diffChunkSizes, s.mergedChunkSizes)
  }

  ghost predicate IndicesFit(indices: seq<nat>, sizes: seq<nat>, merged: seq<nat>) {
    |indices| == |sizes| &&
    (forall i, j :: 0 <= i < j < |indices| ==> indices[i] != indices[j]) &&
    (forall j :: 0 <= j < |indices| ==> indices[j] < |merged| && merged[indices[j]] == sizes[j])
  }

  // The dirty chunks a saved state stands for: segment j of the diff file under index j.
  ghost function Restored(indices: seq<nat>, sizes: seq<nat>, data: seq<byte>, n: nat): map<nat, seq<byte>>
    requires n <= |indices| == |sizes| && Sum(sizes) <= |data|
  {
    if n == 0 then map[]
    else Restored(indices, sizes, data, n - 1)[indices[n - 1] := Segment(data, sizes, n - 1)]
  }

  lemma {:induction false} RestoredAt(indices: seq<nat>, sizes: seq<nat>, data: seq<byte>, n: nat)
    requires n <= |indices| == |sizes| && Sum(sizes) <= |data|
    requires forall i, j :: 0 <= i < j < |indices| ==> indices[i] != indices[j]
    ensures Restored(indices, sizes, data, n).Keys == set i | 0 <= i < n :: indices[i]
    ensures forall j :: 0 <= j < n ==> Restored(indices, sizes, data, n)[indices[j]] == Segment(data, sizes, j)
  {
    if n > 0 { RestoredAt(indices, sizes, data, n - 1); }
  }

  lemma SavedSegment(dirty: map<nat, seq<byte>>, indices: seq<nat>, sizes: seq<nat>, data: seq<byte>, j: nat)
    requires Persists(indices, sizes, data, dirty) && j < |indices|
    ensures Sum(sizes) == |data| && indices[j] in dirty
    ensures sizes[j] == |dirty[indices[j]]| && Segment(data, sizes, j) == dirty[indices[j]]
  {
    assert indices[j] in indices;
    SegmentOfFlatten(DirtyChunks(dirty, indices), j);
  }

  // A saved state passes the checks made when it is opened again.
  lemma SavedFits(img: Image, indices: seq<nat>, sizes: seq<nat>, data: seq<byte>)
    requires img.DirtyFits() && Persists(indices, sizes, data, img.dirty)
    ensures IndicesFit(indices, sizes, img.merged) && Sum(sizes) == |data|
  {
    FlattenLength(DirtyChunks(img.dirty, indices));
    forall j | 0 <= j < |indices| ensures indices[j] < |img.merged| && img.merged[indices[j]] == sizes[j] {
      SavedSegment(img.dirty, indices, sizes, data, j);
    }
  }

  // It restores exactly the dirty chunks it was saved from.
  lemma SavedIsRestored(dirty: map<nat, seq<byte>>, indices: seq<nat>, sizes: seq<nat>, data: seq<byte>)
    requires Persists(indices, sizes, data, dirty) && Sum(sizes) == |data|
    ensures Restored(indices, sizes, data, |indices|) == dirty
  {
    var d := Restored(indices, sizes, data, |indices|);
    hide Sum, Restored, Persists;
    forall k | k in dirty ensures k in d && d[k] == dirty[k] {
      SavedComesBack(dirty, indices, sizes, data, k);
    }
    forall k | k in d ensures k in dirty {
      NothingElse(dirty, indices, sizes, data, k);
    }
    assert d.Keys == dirty.Keys;
  }

  lemma SavedComesBack(dirty: map<nat, seq<byte>>, indices: seq<nat>, sizes: seq<nat>, data: seq<byte>, k: nat)
    requires Persists(indices, sizes, data, dirty) && Sum(sizes) == |data| && k in dirty
    ensures k in Restored(indices, sizes, data, |indices|)
    ensures Restored(indices, sizes, data, |indices|)[k] == dirty[k]
  {
    assert k in indices;
    hide Sum, Flatten, Segment, Restored, Sorted;
    RestoredAt(indices, sizes, data, |indices|);
    var j :| 0 <= j < |indices| && indices[j] == k;
    SavedSegment(dirty, indices, sizes, data, j);
  }

  lemma NothingElse(dirty: map<nat, seq<byte>>, indices: seq<nat>, sizes: seq<nat>, data: seq<byte>, k: nat)
    requires Persists(indices, sizes, data, dirty) && Sum(sizes) == |data| && k in Restored(indices, sizes, data, |indices|)
    ensures k in dirty
  {
    hide Sum, Flatten, Restored, DirtyChunks;
    RestoredAt(indices, sizes, data, |indices|);
    assert k in indices;
  }

  // One more index fits if it is new, in range, and sized like its chunk.
  lemma FitsNext(indices: seq<nat>, sizes: seq<nat>, merged: seq<nat>, j: nat)
    requires j < |indices| == |sizes|
    ensures IndicesFit(indices[..j + 1], sizes[..j + 1], merged) <==>
      (IndicesFit(indices[..j], sizes[..j], merged) && indices[j] !in indices[..j] &&
       indices[j] < |merged| && merged[indices[j]] == sizes[j])
  {
    var now, now2 := indices[..j], indices[..j + 1];
    assert now2 == now + [indices[j]] && sizes[..j + 1] == sizes[..j] + [sizes[j]];
    if IndicesFit(now2, sizes[..j + 1], merged) {
      assert forall i :: 0 <= i < j ==> now2[i] == now[i] && sizes[..j + 1][i] == sizes[..j][i];
    }
  }

  lemma FitsPrefix(indices: seq<nat>, sizes: seq<nat>, merged: seq<nat>, j: nat)
    requires IndicesFit(indices, sizes, merged) && j <= |indices|
    ensures IndicesFit(indices[..j], sizes[..j], merged)
  {
  }

  // Every segment comes back under its index, none in place of another, each as long as its chunk.
  lemma RestoredFits(indices: seq<nat>, sizes: seq<nat>, merged: seq<nat>, data: seq<byte>)
    requires IndicesFit(indices, sizes, merged) && Sum(sizes) == |data|
    ensures var dirty := Restored(indices, sizes, data, |indices|);
      (forall j :: 0 <= j < |indices| ==>
        indices[j] in dirty && dirty[indices[j]] == Segment(data, sizes, j) && indices[j] < |merged|) &&
      (forall k :: k in dirty ==> k < |merged| && |dirty[k]| == merged[k])
  {
    hide Restored, Sum;
    RestoredAt(indices, sizes, data, |indices|);
    hide Segment;
  }

  // The loop open_from_state and rebuild_merged_state share: cut the diff file into dirty chunks.
  method RestoreDirty(indices: seq<nat>, sizes: seq<nat>, mergedSizes: seq<nat>, data: seq<byte>)
    returns (r: Result<map<nat, seq<byte>>, Error>)
    requires |indices| == |sizes| && Sum(sizes) == |data|
    ensures r.Ok? <==> IndicesFit(indices, sizes, mergedSizes)
    ensures r.Ok? ==> r.value == Restored(indices, sizes, data, |indices|)
    ensures r.Ok? ==> forall j :: 0 <= j < |indices| ==>
      indices[j] in r.value && r.value[indices[j]] == Segment(data, sizes, j) && indices[j] < |mergedSizes|
    ensures r.Ok? ==> forall k :: k in r.value ==> k < |mergedSizes| && |r.value[k]| == mergedSizes[k]
  {
    hide Sum;
    var dirty: map<nat, seq<byte>> := map[];
    var cursor: nat := 0;
    var seen: set<nat> := {};
    SumStart(sizes);
    assert IndicesFit(indices[..0], sizes[..0], mergedSizes);
    hide IndicesFit;
    for j := 0 to |indices|
      invariant cursor == Sum(sizes[..j]) && cursor <= |data|
      invariant forall i :: i in seen <==> i in indices[..j]
      invariant IndicesFit(indices[..j], sizes[..j], mergedSizes)
      invariant dirty == Restored(indices, sizes, data, j)
    {
      var index, size := indices[j], sizes[j];
      FitsNext(indices, sizes, mergedSizes, j);
      if IndicesFit(indices, sizes, mergedSizes) { FitsPrefix(indices, sizes, mergedSizes, j + 1); }
      if index in seen { return Err(InvalidData); }
      assert indices[..j + 1] == indices[..j] + [index];
      seen := seen + {index};
      if index >= |mergedSizes| { return Err(InvalidData); }
      if size != mergedSizes[index] { return Err(InvalidData); }
      SumSplit(sizes, j);
      SumPrefixLe(sizes, j + 1, |sizes|);
      assert sizes[..|sizes|] == sizes;
      var end := cursor + size;
      dirty := dirty[index := data[cursor..end]];
      cursor := end;
    }
    assert indices[..|indices|] == indices && sizes[..|indices|] == sizes;
    RestoredFits(indices, sizes, mergedSizes, data);
    return Ok(dirty);
  }

  lemma SumStart(sizes: seq<nat>)
    ensures Sum(sizes[..0]) == 0
  {
  }

  // ---- helpers of the finalize paths ----

  // build_merged_chunk_ids
  method BuildMergedChunkIds(baseIds: seq<ChunkId>, mergedSizes: seq<nat>, dirtyIds: map<nat, ChunkId>)
    returns (r: Result<seq<ChunkId>, Error>)
    ensures r.Ok? <==> forall i :: 0 <= i < |mergedSizes| ==> i in dirtyIds || i < |baseIds|
    ensures r.Ok? ==> |r.value| == |mergedSizes|
    ensures r.Ok? ==> forall i :: 0 <= i < |mergedSizes| ==>
      r.value[i] == if i in dirtyIds then dirtyIds[i] else baseIds[i]
  {
    var ids: seq<ChunkId> := [];
    for index := 0 to |mergedSizes|
      invariant |ids| == index
      invariant forall i :: 0 <= i < index ==> i in dirtyIds || i < |baseIds|
      invariant forall i :: 0 <= i < index ==> ids[i] == if i in dirtyIds then dirtyIds[i] else baseIds[i]
    {
      if index in dirtyIds {
        ids := ids + [dirtyIds[index]];
      } else if index < |baseIds| {
        ids := ids + [baseIds[index]];
      } else {
        return Err(InvalidData);
      }
    }
    return Ok(ids);
  }

  // build_simple_chunk_list_from_ids
  method BuildSimpleChunkList(ids: seq<ChunkId>, mergedSizes: seq<nat>) returns (r: Result<ChunkList, Error>)
    ensures r.Err? <==> (forall i :: 0 <= i < |ids| ==> ids[i].mix) && |ListBytes(ids)| != Sum(mergedSizes)
    ensures r.Ok? ==> r.value == ChunkList(Sum(mergedSizes), ids)
  {
    match FromChunkList(ids)
    case Ok(list) =>
      if list.totalSize != Sum(mergedSizes) {
        return Err(InvalidData);
      }
      return Ok(list);
    case Err(_) =>
      return Ok(ChunkList(Sum(mergedSizes), ids));
  }

  // A restored state has a chunk list when every chunk has an identifier, and lengths embedded in
  // the identifiers do not contradict the recorded total.
  ghost predicate HasMergedList(img: Image, total: nat) {
    (forall i :: 0 <= i < |img.merged| && i !in img.dirty ==> i < |img.baseIds|) &&
    ((forall id :: id in MergedIds(img) ==> id.mix) ==> |ListBytes(MergedIds(img))| == total)
  }

  lemma SettledHasMergedList(img: Image)
    requires img.Settled()
    ensures HasMergedList(img, Sum(img.merged))
  {
    assert forall i :: 0 <= i < |img.merged| && i !in img.dirty ==> img.Clean(i);
    MergedIdsKeepBytes(img);
    img.ChunkSizes();
  }

  // build_merged_chunk_ids followed by build_simple_chunk_list_from_ids
  method BuildMergedList(ghost img: Image, baseIds: seq<ChunkId>, mergedSizes: seq<nat>, dirtyIds: map<nat, ChunkId>)
    returns (r: Result<ChunkList, Error>)
    requires baseIds == img.baseIds && mergedSizes == img.merged
    requires dirtyIds.Keys == img.dirty.Keys && forall i :: i in dirtyIds ==> dirtyIds[i] == MixId(img.dirty[i])
    ensures r.Ok? <==> HasMergedList(img, Sum(mergedSizes))
    ensures r.Ok? ==> r.value == ChunkList(Sum(mergedSizes), MergedIds(img))
  {
    var ids := BuildMergedChunkIds(baseIds, mergedSizes, dirtyIds);
    if ids.Err? { return Err(ids.error); }
    assert ids.value == MergedIds(img);
    r := BuildSimpleChunkList(ids.value, mergedSizes);
  }

  // Where each dirty chunk lies in the diff file, and its identifier.
  function DirtySegments(indices: seq<nat>, sizes: seq<nat>, data: seq<byte>): (d: seq<DirtyChunk>)
    requires |indices| == |sizes| && Sum(sizes) <= |data|
    ensures |d| == |indices|
  {
    seq(|indices|, j requires 0 <= j < |indices| =>
      DirtyChunk(indices[j], Sum(sizes[..j]), sizes[j], MixId(Segment(data, sizes, j))))
  }

  method ListDirtyChunks(indices: seq<nat>, sizes: seq<nat>, data: seq<byte>) returns (list: seq<DirtyChunk>)
    requires |indices| == |sizes| && Sum(sizes) == |data|
    ensures list == DirtySegments(indices, sizes, data)
  {
    list := [];
    var cursor: nat := 0;
    for j := 0 to |indices|
      invariant cursor == Sum(sizes[..j]) && cursor <= |data|
      invariant list == DirtySegments(indices, sizes, data)[..j]
    {
      SumSplit(sizes, j);
      var end := cursor + sizes[j];
      list := list + [DirtyChunk(indices[j], cursor, sizes[j], MixId(data[cursor..end]))];
      cursor := end;
    }
  }

  // rebuild_merged_state_from_writer_state: the chunk list of a closed file, from its saved state.
  method RebuildMergedState(baseIds: seq<ChunkId>, state: WriterState) returns (r: Result<MergedState, Error>)
    ensures r.Ok? <==>
      Accepted(state, state.diffFile.Read()) && HasMergedList(ImageOf(baseIds, state, state.diffFile.Read()), state.totalSize)
    ensures r.Ok? ==>
      var m := r.value;
      m.list == ChunkList(state.totalSize, MergedIds(ImageOf(baseIds, state, state.diffFile.Read())))
      && m.mergedChunkSizes == state.mergedChunkSizes
      && m.dirtyChunks == DirtySegments(state.chunkIndices, state.diffChunkSizes, state.diffFile.Read())
  {
    if state.position > state.totalSize { return Err(InvalidData); }
    if Sum(state.mergedChunkSizes) != state.totalSize { return Err(InvalidData); }
    if |state.chunkIndices| != |state.diffChunkSizes| { return Err(InvalidData); }

    var indices, sizes := state.chunkIndices, state.diffChunkSizes;
    var data: seq<byte> := [];
    if state.diffFile.data.Some? {
      data := state.diffFile.data.value;
    } else if Sum(sizes) != 0 {
      return Err(NotFound);
    }
    if Sum(sizes) != |data| { return Err(InvalidData); }

    var dirty := RestoreDirty(indices, sizes, state.mergedChunkSizes, data);
    if dirty.Err? { return Err(dirty.error); }
    RestoredAt(indices, sizes, data, |indices|);
    var dirtyIds := map k | k in dirty.value :: MixId(dirty.value[k]);
    var dirtyChunks := ListDirtyChunks(indices, sizes, data);
    var list := BuildMergedList(ImageOf(baseIds, state, data), baseIds, state.mergedChunkSizes, dirtyIds);
    if list.Err? { return Err(list.error); }
    return Ok(MergedState(list.value, state.mergedChunkSizes, dirtyChunks));
  }

  // The file a saved state and its diff file stand for.
  ghost function ImageOf(baseIds: seq<ChunkId>, s: WriterState, data: seq<byte>): Image
    requires |s.chunkIndices| == |s.diffChunkSizes| && Sum(s.diffChunkSizes) <= |data|
  {
    Image(baseIds, s.baseChunkSizes, s.mergedChunkSizes,
          Restored(s.chunkIndices, s.diffChunkSizes, data, |s.chunkIndices|))
  }

  // ---- persisting ----

  function IdsOf(chunks: seq<seq<byte>>): (ids: seq<ChunkId>)
    ensures |ids| == |chunks|
  {
    seq(|chunks|, i requires 0 <= i < |chunks| => MixId(chunks[i]))
  }

  function DirtyIds(dirty: map<nat, seq<byte>>): map<nat, ChunkId> {
    map k | k in dirty :: MixId(dirty[k])
  }

  // The store after putting every chunk under its identifier.
  function PutAll(stored: map<ChunkId, seq<byte>>, chunks: seq<seq<byte>>): map<ChunkId, seq<byte>> {
    if chunks == [] then stored
    else
      var last := chunks[|chunks| - 1];
      PutAll(stored, chunks[..|chunks| - 1])[MixId(last) := last]
  }

  lemma PutAllPush(stored: map<ChunkId, seq<byte>>, chunks: seq<seq<byte>>, c: seq<byte>)
    ensures PutAll(stored, chunks + [c]) == PutAll(stored, chunks)[MixId(c) := c]
  {
    assert (chunks + [c])[..|chunks|] == chunks;
  }

  // Nothing stored before is lost, every put chunk is there, and the store stays consistent.
  lemma {:induction false} PutAllStores(stored: map<ChunkId, seq<byte>>, chunks: seq<seq<byte>>)
    ensures var after := PutAll(stored, chunks);
            (forall id :: id in after <==> id in stored || id in IdsOf(chunks))
            && ((forall id :: id in stored ==> stored[id] == id.content) ==>
                forall id :: id in after ==> after[id] == id.content)
  {
    if chunks != [] {
      var front, last := chunks[..|chunks| - 1], chunks[|chunks| - 1];
      PutAllStores(stored, front);
      assert IdsOf(chunks) == IdsOf(front) + [MixId(last)];
    }
  }

  ghost predicate FitUpTo(keys: seq<nat>, chunks: seq<seq<byte>>, merged: seq<nat>, n: nat)
    requires n <= |keys| == |chunks|
  {
    forall i :: 0 <= i < n ==> keys[i] < |merged| && |chunks[i]| == merged[keys[i]]
  }

  lemma AllFit(img: Image, keys: seq<nat>)
    requires keys == Sorted(img.dirty.Keys)
    ensures img.DirtyFits() <==> FitUpTo(keys, DirtyChunks(img.dirty, keys), img.merged, |keys|)
  {
    assert forall k :: k in keys <==> k in img.dirty;
    hide Sorted;
    if FitUpTo(keys, DirtyChunks(img.dirty, keys), img.merged, |keys|) {
      forall k | k in img.dirty ensures k < |img.merged| && |img.dirty[k]| == img.merged[k] {
        FitAt(img, keys, k);
      }
    } else {
      MisfitAt(img, keys);
    }
  }

  lemma FitAt(img: Image, keys: seq<nat>, k: nat)
    requires k in keys && (forall i :: i in keys ==> i in img.dirty)
    requires FitUpTo(keys, DirtyChunks(img.dirty, keys), img.merged, |keys|)
    ensures k < |img.merged| && |img.dirty[k]| == img.merged[k]
  {
    var i :| 0 <= i < |keys| && keys[i] == k;
  }

  lemma MisfitAt(img: Image, keys: seq<nat>)
    requires forall i :: i in keys ==> i in img.dirty
    requires !FitUpTo(keys, DirtyChunks(img.dirty, keys), img.merged, |keys|)
    ensures !img.DirtyFits()
  {
    var i: nat :| i < |keys| && !(keys[i] < |img.merged| && |img.dirty[keys[i]]| == img.merged[keys[i]]);
    assert keys[i] in keys;
  }

  // The loop over the dirty chunks that fills the diff file; chunks[j] is the one at index keys[j].
  method SerializeDirty(keys: seq<nat>, chunks: seq<seq<byte>>, mergedSizes: seq<nat>)
    returns (r: Result<(seq<byte>, seq<nat>), Error>)
    requires |keys| == |chunks|
    ensures r.Ok? <==> FitUpTo(keys, chunks, mergedSizes, |keys|)
    ensures r.Ok? ==> r.value == (Flatten(chunks), Sizes(chunks))
  {
    var data: seq<byte> := [];
    var sizes: seq<nat> := [];
    for j := 0 to |keys|
      invariant sizes == Sizes(chunks)[..j] && data == Flatten(chunks[..j])
      invariant FitUpTo(keys, chunks, mergedSizes, j)
    {
      if keys[j] >= |mergedSizes| { return Err(InvalidParam); }
      if |chunks[j]| != mergedSizes[keys[j]] { return Err(InvalidData); }
      FlattenSplit(chunks, j);
      data := data + chunks[j];
      sizes := sizes + [|chunks[j]|];
    }
    assert chunks[..|keys|] == chunks && Sizes(chunks)[..|keys|] == Sizes(chunks);
    return Ok((data, sizes));
  }

  class DiffChunkListWriter {
    const store: NamedStore
    const baseList: string
    const baseIds: seq<ChunkId>
    const baseSizes: seq<nat>
    const autoCache: bool
    const localMode: bool
    const fixedChunkSize: Option<nat>
    const appendMergeLast: bool
    const diffFile: DiffFile

    var mergedSizes: seq<nat>
    var dirtyChunks: map<nat, seq<byte>>
    var position: nat
    var totalSize: nat

    constructor New(store: NamedStore, baseList: string, baseIds: seq<ChunkId>, baseSizes: seq<nat>,
                    options: WriterOptions, diffFile: DiffFile)
      requires |baseSizes| == |baseIds|
      ensures this.store == store && this.baseList == baseList && this.diffFile == diffFile
      ensures autoCache == options.autoCache && localMode == options.localMode
      ensures fixedChunkSize == options.fixedChunkSize && appendMergeLast == options.appendMergeLast
      ensures Img() == Image(baseIds, baseSizes, baseSizes, map[]) && position == 0 && totalSize == Sum(baseSizes)
      ensures TrueSizesOf(baseIds, baseSizes) ==> Valid() && Abs() == Cursor(ListBytes(baseIds), 0)
    {
      this.store := store;
      this.baseList := baseList;
      this.baseIds := baseIds;
      this.baseSizes := baseSizes;
      autoCache, localMode := options.autoCache, options.localMode;
      fixedChunkSize, appendMergeLast := options.fixedChunkSize, options.appendMergeLast;
      this.diffFile := diffFile;
      mergedSizes := baseSizes;
      dirtyChunks := map[];
      position := 0;
      totalSize := Sum(baseSizes);
      new;
      if TrueSizesOf(baseIds, baseSizes) {
        BaseImage(baseIds, baseSizes);
      }
    }

    // DiffChunkListWriter::new: a writer on a base list whose sizes can be found.  When they are the sizes
    // of the chunks, as sizes from a store or from identifiers always are, it stands for the bytes of the list.
    static method Create(store: NamedStore, baseList: string, list: ChunkList, options: WriterOptions, diffFile: DiffFile)
      returns (r: Result<DiffChunkListWriter, Error>)
      ensures r.Ok? <==>
        ResolvedSizes(store.chunks, list, options.localMode, options.fixedChunkSize, options.baseChunkSizes).Some?
      ensures r.Ok? ==>
        var w := r.value;
        fresh(w) && w.store == store && w.baseList == baseList && w.diffFile == diffFile &&
        w.autoCache == options.autoCache && w.localMode == options.localMode &&
        w.fixedChunkSize == options.fixedChunkSize && w.appendMergeLast == options.appendMergeLast
      ensures r.Ok? ==>
        var sizes := ResolvedSizes(store.chunks, list, options.localMode, options.fixedChunkSize, options.baseChunkSizes).value;
        r.value.Img() == Image(list.body, sizes, sizes, map[]) && r.value.position == 0 && r.value.totalSize == Sum(sizes) &&
        (TrueSizesOf(list.body, sizes) ==> r.value.Valid() && r.value.Abs() == Cursor(ListBytes(list.body), 0))
    {
      var sizes := ResolveChunkSizes(store, list, options.localMode, options.fixedChunkSize, options.baseChunkSizes);
      if sizes.Err? { return Err(sizes.error); }
      ResolvedLength(store.chunks, list, options.localMode, options.fixedChunkSize, options.baseChunkSizes);
      var w := new DiffChunkListWriter.New(store, baseList, list.body, sizes.value, options, diffFile);
      return Ok(w);
    }

    // Every field at once; the last step of open_from_state.
    constructor FromParts(store: NamedStore, baseIds: seq<ChunkId>, s: WriterState, dirty: map<nat, seq<byte>>)
      ensures this.store == store && this.baseIds == baseIds && this.dirtyChunks == dirty
      ensures this.baseList == s.baseList && this.baseSizes == s.baseChunkSizes && this.diffFile == s.diffFile
      ensures this.autoCache == s.autoCache && this.localMode == s.localMode
      ensures this.fixedChunkSize == s.fixedChunkSize && this.appendMergeLast == s.appendMergeLast
      ensures this.mergedSizes == s.mergedChunkSizes && this.position == s.position && this.totalSize == s.totalSize
    {
      this.store := store;
      this.baseList := s.baseList;
      this.baseIds := baseIds;
      this.baseSizes := s.baseChunkSizes;
      this.autoCache, this.localMode := s.autoCache, s.localMode;
      this.fixedChunkSize := s.fixedChunkSize;
      this.appendMergeLast := s.appendMergeLast;
      this.diffFile := s.diffFile;
      mergedSizes := s.mergedChunkSizes;
      dirtyChunks := dirty;
      position := s.position;
      totalSize := s.totalSize;
    }

    ghost function Img(): Image
      reads this
    {
      Image(baseIds, baseSizes, mergedSizes, dirtyChunks)
    }

    ghost function Cut(): Cutting {
      Cutting(fixedChunkSize, baseSizes, appendMergeLast)
    }

    // The file this writer stands for: its logical bytes and the write position.
    ghost function Abs(): Cursor
      reads this
    {
      Cursor(Img().Flat(), position)
    }

    ghost predicate Valid()
      reads this
    {
      Img().Settled() && totalSize == Sum(mergedSizes) == |Abs().bytes| && Abs().Valid()
    }

    ghost predicate BaseStored()
      reads this, store
    {
      store.Valid() && store.Has(baseIds)
    }

    method PreferredChunkSize(remaining: nat) returns (n: nat)
      ensures n == PreferredSize(Cut(), remaining)
    {
      if fixedChunkSize.Some? && 0 < fixedChunkSize.value {
        return fixedChunkSize.value;
      }
      if 1 < |baseSizes| {
        var maxSize: nat := 0;
        var front := baseSizes[..|baseSizes| - 1];
        for i := 0 to |front|
          invariant maxSize == MaxOf(front[..i])
        {
          assert front[..i + 1][..i] == front[..i];
          maxSize := Max(maxSize, front[i]);
        }
        assert front[..|front|] == front;
        if 0 < maxSize { return maxSize; }
      }
      if baseSizes != [] && 0 < baseSizes[|baseSizes| - 1] {
        return baseSizes[|baseSizes| - 1];
      }
      return Max(remaining, 1);
    }

    method AppendChunk(added: nat)
      requires Valid()
      modifies this`mergedSizes, this`totalSize
      ensures Img() == Pushed(old(Img()), added) && totalSize == old(totalSize) + added
      ensures mergedSizes == old(mergedSizes) + [added] && mergedSizes[..|mergedSizes| - 1] == old(mergedSizes)
    {
      mergedSizes := mergedSizes + [added];
      totalSize := totalSize + added;
    }

    method GrowLastChunk(grow: nat)
      requires Valid() && mergedSizes != []
      modifies this`mergedSizes, this`dirtyChunks, this`totalSize
      ensures Img() == Grown(old(Img()), grow) && totalSize == old(totalSize) + grow
      ensures mergedSizes == old(mergedSizes[|mergedSizes| - 1 := mergedSizes[|mergedSizes| - 1] + grow])
      ensures mergedSizes[..|mergedSizes| - 1] == old(mergedSizes[..|mergedSizes| - 1])
    {
      var last := |mergedSizes| - 1;
      mergedSizes := mergedSizes[last := mergedSizes[last] + grow];
      totalSize := totalSize + grow;
      if last in dirtyChunks {
        dirtyChunks := dirtyChunks[last := Resize(dirtyChunks[last], mergedSizes[last])];
      }
    }

    // Makes room at the end of the file: grows the last chunk, or adds one, by zero bytes, as the chunk sizes
    // demand; asked for nothing, does nothing.
    method ExtendForAppend(remaining: nat)
      requires Valid()
      modifies this`mergedSizes, this`dirtyChunks, this`totalSize
      ensures remaining == 0 ==> Img() == old(Img()) && totalSize == old(totalSize)
      ensures 0 < remaining ==> Img().Extended() && totalSize == Sum(mergedSizes)
      ensures 0 < remaining ==> old(totalSize) < totalSize <= old(totalSize) + remaining
      ensures 0 < remaining ==> Img().Flat() == old(Img().Flat()) + Zeros(totalSize - old(totalSize))
      ensures 0 < remaining ==> mergedSizes != [] && Sum(mergedSizes[..|mergedSizes| - 1]) <= old(totalSize)
      ensures 0 < remaining ==> mergedSizes == RoomFor(Cut(), old(mergedSizes), remaining)
    {
      hide RoomFor, Image.Flat, Image.Extended, Image.Settled, Zeros;
      if remaining != 0 { MakeRoom(remaining); }
    }

    method MakeRoom(remaining: nat)
      requires Valid() && 0 < remaining
      modifies this`mergedSizes, this`dirtyChunks, this`totalSize
      ensures Img().Extended() && totalSize == Sum(mergedSizes) && mergedSizes != []
      ensures old(totalSize) < totalSize <= old(totalSize) + remaining
      ensures Img().Flat() == old(Img().Flat()) + Zeros(totalSize - old(totalSize))
      ensures Sum(mergedSizes[..|mergedSizes| - 1]) <= old(totalSize)
      ensures mergedSizes == RoomFor(Cut(), old(mergedSizes), remaining)
    {
      hide Image.Flat, Image.Extended, Zeros, PreferredSize, RoomFor, Sum;
      var preferred := PreferredChunkSize(remaining);
      if mergedSizes == [] {
        RoomPushed(Cut(), mergedSizes, remaining);
        PushChunk(Img(), Min(remaining, preferred));
        AppendChunk(Min(remaining, preferred));
        return;
      }
      var last := |mergedSizes| - 1;
      var lastSize := mergedSizes[last];
      if appendMergeLast && lastSize < preferred {
        RoomGrown(Cut(), mergedSizes, remaining);
        SumSplit(mergedSizes, last);
        GrowLast(Img(), Min(preferred - lastSize, remaining));
        GrowLastChunk(Min(preferred - lastSize, remaining));
        return;
      }
      RoomPushed(Cut(), mergedSizes, remaining);
      PushChunk(Img(), Min(remaining, preferred));
      AppendChunk(Min(remaining, preferred));
    }

    method LocatePosition(at: nat) returns (r: Option<(nat, nat)>)
      requires totalSize == Sum(mergedSizes)
      ensures r.Some? <==> at < totalSize
      ensures r.Some? ==> var (k, offset) := r.value;
        k < |mergedSizes| && offset < mergedSizes[k] && Sum(mergedSizes[..k]) + offset == at
    {
      if mergedSizes == [] || at >= totalSize { return None; }
      assert mergedSizes[..|mergedSizes|] == mergedSizes;
      var start: nat := 0;
      for index := 0 to |mergedSizes|
        invariant start == Sum(mergedSizes[..index]) && start <= at
      {
        SumSplit(mergedSizes, index);
        var end := start + mergedSizes[index];
        if at < end { return Some((index, at - start)); }
        start := end;
      }
      assert false;
    }

    // Copies a chunk into the dirty map, cut or zero-padded to its merged size; refused for a chunk that is not there.
    method EnsureDirtyChunk(k: nat) returns (r: Result<(), Error>)
      requires Img().Settled() || (Img().Extended() && |mergedSizes| - 1 <= k)
      requires BaseStored()
      modifies this`dirtyChunks
      ensures r.Ok? <==> k < |mergedSizes|
      ensures r.Err? ==> dirtyChunks == old(dirtyChunks)
      ensures r.Ok? ==> Img().Settled() && k in dirtyChunks && Img().Flat() == old(Img().Flat())
    {
      if k >= |mergedSizes| { return Err(InvalidParam); }
      r := Ok(());
      ghost var img := Img();
      MaterializeChunk(img, k);
      var expected := mergedSizes[k];
      if k in dirtyChunks {
        dirtyChunks := dirtyChunks[k := Resize(dirtyChunks[k], expected)];
        assert dirtyChunks == Materialized(img, k).dirty;
        return;
      }
      var data := Zeros(expected);
      if k < |baseIds| {
        var baseData := store.ReadChunk(baseIds[k]);
        var copyLen := Min(|baseData|, |data|);
        data := baseData[..copyLen] + data[copyLen..];
      }
      assert data == img.Chunk(k);
      dirtyChunks := dirtyChunks[k := data];
    }

    // The chunk the next bytes go to, made dirty; at the end of the file, room is made first.
    method OpenChunkForWrite(remaining: nat) returns (k: nat, offset: nat)
      requires Valid() && BaseStored() && 0 < remaining
      modifies this`mergedSizes, this`dirtyChunks, this`totalSize
      ensures Img().Settled() && totalSize == Sum(mergedSizes)
      ensures k in dirtyChunks && k < |mergedSizes| && offset < mergedSizes[k] && Sum(mergedSizes[..k]) + offset == position
      ensures Img().Flat() == old(Img().Flat())
        || (position == old(totalSize) && mergedSizes[k] - offset <= remaining
            && Img().Flat() == old(Img().Flat()) + Zeros(mergedSizes[k] - offset))
      ensures position < old(totalSize) ==> mergedSizes == old(mergedSizes)
      ensures position == old(totalSize) ==>
        mergedSizes == RoomFor(Cut(), old(mergedSizes), remaining) && totalSize == position + mergedSizes[k] - offset
    {
      hide Image.Flat, Zeros, Sum, RoomFor;
      if position == totalSize {
        ExtendForAppend(remaining);
        var located := LocatePosition(position);
        k, offset := located.value.0, located.value.1;
        LocatedInLast(mergedSizes, k, offset);
      } else {
        var located := LocatePosition(position);
        k, offset := located.value.0, located.value.1;
      }
      var ensured := EnsureDirtyChunk(k);
    }

    // A write replaces the bytes at the position, whatever chunks they fall in, and extends the
    // file when it runs past the end.  All zero fill is overwritten on the way.  The bytes added at the end are
    // cut into chunks as one append.
    method Write(buf: seq<byte>) returns (written: nat)
      requires Valid() && BaseStored()
      modifies this`mergedSizes, this`dirtyChunks, this`position, this`totalSize
      ensures Valid() && written == |buf|
      ensures Abs() == old(Abs()).Write(buf)
      ensures mergedSizes == SizesAfter(Cut(), old(mergedSizes), old(Abs()).Growth(|buf|))
    {
      hide Cursor.Write, Cursor.Growth, Image.Flat, SizesAfter;
      ghost var before, sizes := Abs(), mergedSizes;
      written := 0;
      WriteNothing(before);
      while written < |buf|
        invariant Valid() && written <= |buf|
        invariant Abs() == before.Write(buf[..written])
        invariant AfterwardsSame(sizes, before.Growth(|buf|), |buf| - written)
      {
        ghost var c := Abs();
        var len := WriteSome(buf[written..]);
        assert buf[written..][..len] == buf[written..written + len];
        WriteMore(before, c, buf, written, len);
        written := written + len;
      }
      assert buf[..written] == buf;
      NothingLeft(Cut(), mergedSizes, Abs());
    }

    // Adding what n more bytes add to the file makes the same sizes as adding so many bytes to the sizes before.
    ghost predicate AfterwardsSame(before: seq<nat>, growth: nat, n: nat)
      reads this
    {
      SizesAfter(Cut(), mergedSizes, Abs().Growth(n)) == SizesAfter(Cut(), before, growth)
    }

    // One turn of the write loop: as much of buf as fits in one chunk, and at least one byte.
    method WriteSome(buf: seq<byte>) returns (len: nat)
      requires Valid() && BaseStored() && buf != []
      modifies this`mergedSizes, this`dirtyChunks, this`position, this`totalSize
      ensures Valid() && 0 < len <= |buf|
      ensures Abs() == old(Abs()).Write(buf[..len])
      ensures AfterwardsSame(old(mergedSizes), old(Abs()).Growth(|buf|), |buf| - len)
    {
      hide SizesAfter, RoomFor, Sum, Image.Flat, Image.Settled, Cursor.Write;
      ghost var c, sizes := Abs(), mergedSizes;
      var k, offset := OpenChunkForWrite(|buf|);
      // the source's retry for an empty rest of a chunk is never taken: the rest is not empty
      len := Min(mergedSizes[k] - offset, |buf|);
      CopyIntoChunk(c, k, offset, buf[..len]);
      WriteMeans(c, buf[..len]);
      StepGrowth(Cut(), c, sizes, mergedSizes, |buf|, len, Abs());
    }

    method CopyIntoChunk(ghost c: Cursor, k: nat, offset: nat, part: seq<byte>)
      requires Img().Settled() && totalSize == Sum(mergedSizes) && c.Valid() && c.position == position
      requires k in dirtyChunks && offset + |part| <= mergedSizes[k] && Sum(mergedSizes[..k]) + offset == position
      requires Img().Flat() == c.bytes || (position == |c.bytes| && Img().Flat() == c.bytes + Zeros(|part|))
      modifies this`dirtyChunks, this`position
      ensures Valid()
      ensures Abs() == c.Write(part)
    {
      CopyStep(Img(), c.bytes, position, k, offset, part);
      dirtyChunks := dirtyChunks[k := Overwrite(dirtyChunks[k], offset, part)];
      position := position + |part|;
    }

    method Seek(from: SeekFrom) returns (r: Result<nat, Error>)
      requires Valid()
      modifies this`position
      ensures Valid()
      ensures match old(Abs()).Seek(from)
              case Ok(c) => r == Ok(c.position) && Abs() == c
              case Err(e) => r == Err(e) && Abs() == old(Abs())
    {
      Img().ChunkSizes();
      hide Image.Settled, Image.Flat, Sum;
      var target := match from
        case Start(offset) => offset
        case Current(delta) => position + delta
        case End(delta) => totalSize + delta;
      if target < 0 || target > totalSize { return Err(OffsetTooLarge); }
      position := target;
      return Ok(position);
    }

    // Writes the dirty chunks to the diff file in index order; in named mode also to the store.
    method PersistDirtyChunks(namedMode: bool) returns (r: Result<PersistedDirtyChunks, Error>)
      modifies diffFile, store
      ensures r.Ok? <==> Img().DirtyFits()
      ensures !namedMode ==> store.chunks == old(store.chunks)
      ensures r.Ok? ==>
        Persists(r.value.chunkIndices, r.value.diffChunkSizes, diffFile.Read(), dirtyChunks) &&
        diffFile.data.Some? && r.value.dirtyIds == DirtyIds(dirtyChunks)
      ensures r.Ok? && namedMode ==>
        r.value.diffChunkIds == IdsOf(DirtyChunks(dirtyChunks, r.value.chunkIndices)) &&
        store.chunks == PutAll(old(store.chunks), DirtyChunks(dirtyChunks, r.value.chunkIndices))
    {
      var keys: seq<nat> := Sorted(dirtyChunks.Keys);
      diffFile.data := Some([]);
      var chunks := DirtyChunks(dirtyChunks, keys);
      AllFit(Img(), keys);
      var serialized := SerializeDirty(keys, chunks, mergedSizes);
      if serialized.Err? { return Err(serialized.error); }
      if namedMode {
        PutChunks(chunks);
      }
      diffFile.data := Some(serialized.value.0);
      return Ok(PersistedDirtyChunks(keys, serialized.value.1, DirtyIds(dirtyChunks), IdsOf(chunks)));
    }

    // The part of the loop that, in named mode, stores each chunk under its identifier.
    method PutChunks(chunks: seq<seq<byte>>)
      modifies store
      ensures store.chunks == PutAll(old(store.chunks), chunks)
    {
      for j := 0 to |chunks|
        invariant store.chunks == PutAll(old(store.chunks), chunks[..j])
      {
        assert chunks[..j + 1] == chunks[..j] + [chunks[j]];
        PutAllPush(old(store.chunks), chunks[..j], chunks[j]);
        store.PutChunk(MixId(chunks[j]), chunks[j]);
      }
      assert chunks[..|chunks|] == chunks;
    }

    // The state close() saves, given the dirty chunks it has just written out.
    ghost predicate SavedAs(s: WriterState)
      reads this, s.diffFile
    {
      s.diffFile == diffFile && s.diffFile.data.Some? &&
      Persists(s.chunkIndices, s.diffChunkSizes, s.diffFile.Read(), dirtyChunks) &&
      s.baseList == baseList && s.baseChunkSizes == baseSizes && s.mergedChunkSizes == mergedSizes &&
      s.position == position && s.totalSize == totalSize &&
      s.autoCache == autoCache && s.localMode == localMode &&
      s.fixedChunkSize == fixedChunkSize && s.appendMergeLast == appendMergeLast
    }

    // All that later calls can depend on.
    ghost predicate SameAs(w: DiffChunkListWriter)
      reads this, w
    {
      store == w.store && baseList == w.baseList && Img() == w.Img() && diffFile == w.diffFile &&
      position == w.position && totalSize == w.totalSize &&
      autoCache == w.autoCache && localMode == w.localMode &&
      fixedChunkSize == w.fixedChunkSize && appendMergeLast == w.appendMergeLast
    }

    method Close() returns (r: Result<WriterState, Error>)
      modifies diffFile, store
      ensures r.Ok? <==> Img().DirtyFits()
      ensures store.chunks == old(store.chunks)
      ensures r.Ok? ==> SavedAs(r.value)
    {
      var p := PersistDirtyChunks(false);
      if p.Err? { return Err(p.error); }
      return Ok(WriterState(
        baseList, diffFile, p.value.chunkIndices, p.value.diffChunkSizes, baseSizes, mergedSizes,
        position, totalSize, autoCache, localMode, fixedChunkSize, appendMergeLast));
    }

    // open_from_state: accepts exactly the states that pass its checks, and rebuilds the writer.
    static method OpenFromState(store: NamedStore, baseIds: seq<ChunkId>, s: WriterState)
      returns (r: Result<DiffChunkListWriter, Error>)
      ensures r.Ok? <==> |s.baseChunkSizes| == |baseIds| && Accepted(s, s.diffFile.Read())
      ensures r.Ok? ==> var w := r.value;
        fresh(w) && w.store == store && w.baseList == s.baseList && w.diffFile == s.diffFile
        && w.Img() == ImageOf(baseIds, s, s.diffFile.Read())
        && w.position == s.position <= w.totalSize == s.totalSize == Sum(w.mergedSizes)
        && w.autoCache == s.autoCache && w.localMode == s.localMode
        && w.fixedChunkSize == s.fixedChunkSize && w.appendMergeLast == s.appendMergeLast
        && w.Img().DirtyFits()
    {
      if |s.baseChunkSizes| != |baseIds| { return Err(InvalidData); }
      if s.position > s.totalSize { return Err(InvalidData); }
      if Sum(s.mergedChunkSizes) != s.totalSize { return Err(InvalidData); }
      if |s.chunkIndices| != |s.diffChunkSizes| { return Err(InvalidData); }
      var data := s.diffFile.Read();
      if Sum(s.diffChunkSizes) != |data| { return Err(InvalidData); }
      var dirty := RestoreDirty(s.chunkIndices, s.diffChunkSizes, s.mergedChunkSizes, data);
      if dirty.Err? { return Err(dirty.error); }
      var w := new DiffChunkListWriter.FromParts(store, baseIds, s, dirty.value);
      return Ok(w);
    }

    // Closing a writer and opening it again never fails and gives the same writer.
    method Reopen() returns (w: DiffChunkListWriter)
      requires Valid()
      modifies diffFile, store
      ensures fresh(w) && w.Valid() && w.SameAs(this) && w.Abs() == Abs() == old(Abs())
      ensures store.chunks == old(store.chunks)
    {
      var s := Close();
      SavedReopens(this, s.value);
      var r := OpenFromState(store, baseIds, s.value);
      w := r.value;
    }

    // The diff and the plain chunk list of the finished file; in named mode the dirty chunks are stored.
    method Finalize(namedMode: bool) returns (r: Result<(DiffChunkList, ChunkList), Error>)
      requires Valid()
      modifies diffFile, store
      ensures r.Ok?
      ensures var (diff, list) := r.value;
        list == ChunkList(totalSize, MergedIds(Img())) && ListBytes(list.body) == Abs().bytes &&
        Sizes(Contents(list.body)) == mergedSizes
      ensures var (diff, list) := r.value;
        diff.baseList == baseList && diff.diffFile == diffFile && diffFile.data.Some?
        && Persists(diff.chunkIndices, Sizes(DirtyChunks(dirtyChunks, Sorted(dirtyChunks.Keys))), diffFile.Read(), dirtyChunks)
        && diff.chunkIds == if namedMode then Some(IdsOf(DirtyChunks(dirtyChunks, diff.chunkIndices))) else None
      ensures old(BaseStored()) && namedMode ==>
        store.Valid() && store.Has(r.value.1.body) && BaseStored() && Fetch(store.chunks, r.value.1.body) == Abs().bytes
      ensures !namedMode ==> store.chunks == old(store.chunks)
    {
      ghost var stored, base := store.chunks, BaseStored();
      SettledHasMergedList(Img());
      MergedIdsKeepBytes(Img());
      hide Flatten, Sum, Image.Flat, Image.Settled, Sorted, PutAll, MergedIds, NamedStore.Has, NamedStore.Valid;
      var p := PersistDirtyChunks(namedMode);
      var list := BuildMergedList(Img(), baseIds, mergedSizes, p.value.dirtyIds);
      var diff := DiffChunkList(baseList, diffFile, p.value.chunkIndices,
                                if namedMode then Some(p.value.diffChunkIds) else None);
      if namedMode && base {
        StoredIsReadable(store, stored, Img());
      }
      return Ok((diff, list.value));
    }
  }

  lemma NothingLeft(cut: Cutting, sizes: seq<nat>, c: Cursor)
    requires c.Valid()
    ensures SizesAfter(cut, sizes, c.Growth(0)) == sizes
  {
  }

  // One turn either stays inside the file, or fills exactly the room it made.
  lemma StepGrowth(cut: Cutting, c: Cursor, sizes: seq<nat>, sizes2: seq<nat>, n: nat, len: nat, d: Cursor)
    requires c.Valid() && 0 < len <= n && Sum(sizes) == |c.bytes| && Sum(sizes2) == |d.bytes|
    requires d.position == c.position + len && |d.bytes| == |c.bytes| + c.Growth(len)
    requires c.position < |c.bytes| ==> sizes2 == sizes
    requires c.position == |c.bytes| ==> sizes2 == RoomFor(cut, sizes, n)
    ensures SizesAfter(cut, sizes2, d.Growth(n - len)) == SizesAfter(cut, sizes, c.Growth(n))
  {
    hide RoomFor, SizesAfter, Sum;
    if c.position == |c.bytes| { AfterRoom(cut, sizes, n); }
  }

  // Once the dirty chunks are put into a store that has the base, the merged list can be fetched.
  lemma StoredIsReadable(store: NamedStore, stored: map<ChunkId, seq<byte>>, img: Image)
    requires img.Settled()
    requires store.chunks == PutAll(stored, DirtyChunks(img.dirty, Sorted(img.dirty.Keys)))
    requires (forall i :: 0 <= i < |img.baseIds| ==> img.baseIds[i] in stored) && (forall id :: id in stored ==> stored[id] == id.content)
    ensures store.Valid() && store.Has(MergedIds(img)) && store.Has(img.baseIds)
    ensures Fetch(store.chunks, MergedIds(img)) == img.Flat()
  {
    AllStored(stored, img);
    PutAllStores(stored, DirtyChunks(img.dirty, Sorted(img.dirty.Keys)));
    hide PutAll, Sorted, Flatten;
    FetchIsListBytes(store.chunks, MergedIds(img));
    MergedIdsKeepBytes(img);
  }

  lemma ResolvedLength(chunks: map<ChunkId, seq<byte>>, list: ChunkList, localMode: bool, fixedSize: Option<nat>,
                       explicit: Option<seq<nat>>)
    requires ResolvedSizes(chunks, list, localMode, fixedSize, explicit).Some?
    ensures |ResolvedSizes(chunks, list, localMode, fixedSize, explicit).value| == |list.body|
  {
  }

  // Closing a file and rebuilding its chunk list from what was saved gives the list that finalizing it gives.
  method RebuiltIsFinalized(w: DiffChunkListWriter, namedMode: bool) returns (rebuilt: ChunkList, finalized: ChunkList)
    requires w.Valid()
    modifies w.diffFile, w.store
    ensures rebuilt == finalized && ListBytes(rebuilt.body) == w.Abs().bytes
  {
    var s := w.Close();
    SavedReopens(w, s.value);
    SettledHasMergedList(w.Img());
    var merged := RebuildMergedState(w.baseIds, s.value);
    rebuilt := merged.value.list;
    var r := w.Finalize(namedMode);
    finalized := r.value.1;
  }

  lemma SavedReopens(w: DiffChunkListWriter, s: WriterState)
    requires w.Valid() && w.SavedAs(s)
    ensures Accepted(s, s.diffFile.Read())
    ensures ImageOf(w.baseIds, s, s.diffFile.Read()) == w.Img()
  {
    SavedFits(w.Img(), s.chunkIndices, s.diffChunkSizes, s.diffFile.Read());
    SavedIsRestored(w.dirtyChunks, s.chunkIndices, s.diffChunkSizes, s.diffFile.Read());
  }

  // After the dirty chunks are put, every chunk of the merged list is in the store.
  lemma AllStored(stored: map<ChunkId, seq<byte>>, img: Image)
    requires img.Settled()
    ensures var after := PutAll(stored, DirtyChunks(img.dirty, Sorted(img.dirty.Keys)));
            ((forall i :: 0 <= i < |img.baseIds| ==> img.baseIds[i] in stored) ==>
              forall i :: 0 <= i < |img.merged| ==> MergedIds(img)[i] in after)
            && ((forall id :: id in stored ==> stored[id] == id.content) ==>
              forall id :: id in after ==> after[id] == id.content)
  {
    var keys := Sorted(img.dirty.Keys);
    var chunks := DirtyChunks(img.dirty, keys);
    PutAllStores(stored, chunks);
    forall i | 0 <= i < |img.merged| && i in img.dirty ensures MergedIds(img)[i] in IdsOf(chunks) {
      assert i in keys;
      var j :| 0 <= j < |keys| && keys[j] == i;
      assert IdsOf(chunks)[j] == MergedIds(img)[i];
    }
    forall i | 0 <= i < |img.merged| && i !in img.dirty ensures i < |img.baseIds| {
      assert img.Clean(i);
    }
  }
}
