// The file buffer around the writer: keeping a closed writer's state in the buffer record,
// opening a writer from it, and turning a finished buffer into stored content.
module FileBuffer {
  import opened Bytes
  import opened ChunkStore
  import opened ChunkSizes
  import opened FileImage
  import opened AppendSizes
  import opened DiffWriter

  datatype FileBufferDiffState = FileBufferDiffState(
    chunkIndices: seq<nat>, diffChunkSizes: seq<nat>,
    baseChunkSizes: seq<nat>, mergedChunkSizes: seq<nat>,
    position: nat, totalSize: nat,
    autoCache: bool, localMode: bool, fixedChunkSize: Option<nat>, appendMergeLast: bool)

  class FileBufferRecord {
    const baseIds: seq<ChunkId>
    const baseList: string
    const diffFile: DiffFile
    var diffState: FileBufferDiffState

    constructor (baseIds: seq<ChunkId>, baseList: string, diffFile: DiffFile, diffState: FileBufferDiffState)
      ensures this.baseIds == baseIds && this.baseList == baseList && this.diffFile == diffFile
      ensures this.diffState == diffState
    {
      this.baseIds := baseIds;
      this.baseList := baseList;
      this.diffFile := diffFile;
      this.diffState := diffState;
    }
  }

  predicate HasWriterState(d: FileBufferDiffState) {
    d.baseChunkSizes != [] || d.chunkIndices != [] || d.diffChunkSizes != [] ||
    d.mergedChunkSizes != [] || d.totalSize > 0 || d.position > 0
  }

  function WriterStateFromDiffState(fb: FileBufferRecord, d: FileBufferDiffState): WriterState {
    WriterState(fb.baseList, fb.diffFile, d.chunkIndices, d.diffChunkSizes, d.baseChunkSizes,
                d.mergedChunkSizes, d.position, d.totalSize, d.autoCache, d.localMode,
                d.fixedChunkSize, d.appendMergeLast)
  }

  function DiffStateFromWriterState(s: WriterState): FileBufferDiffState {
    FileBufferDiffState(s.chunkIndices, s.diffChunkSizes, s.baseChunkSizes, s.mergedChunkSizes,
                        s.position, s.totalSize, s.autoCache, s.localMode,
                        s.fixedChunkSize, s.appendMergeLast)
  }

  // The record holds what flushing w saved.
  ghost predicate Holds(fb: FileBufferRecord, w: DiffChunkListWriter)
    reads fb, w, fb.diffFile
  {
    fb.baseIds == w.baseIds && w.SavedAs(WriterStateFromDiffState(fb, fb.diffState))
  }

  // NfsFileWriter::flush
  method Flush(w: DiffChunkListWriter, fb: FileBufferRecord)
    requires w.Valid() && fb.baseIds == w.baseIds && fb.baseList == w.baseList && fb.diffFile == w.diffFile
    modifies fb, w.diffFile, w.store
    ensures Holds(fb, w)
    ensures w.store.chunks == old(w.store.chunks)
  {
    var s := w.Close();
    fb.diffState := DiffStateFromWriterState(s.value);
    assert WriterStateFromDiffState(fb, fb.diffState) == s.value;
  }

  // base_simple_chunk_list: the declared total counts embedded lengths only.
  function BaseSimpleChunkList(ids: seq<ChunkId>): ChunkList {
    if FromChunkList(ids).Ok? then FromChunkList(ids).value else ChunkList(EmbeddedTotal(ids), ids)
  }

  function EmbeddedTotal(ids: seq<ChunkId>): nat {
    if ids == [] then 0
    else
      var last := ids[|ids| - 1];
      EmbeddedTotal(ids[..|ids| - 1]) + (if last.mix then |last.content| else 0)
  }

  // The sizes a writer on the untouched base list of the record starts from.
  function StartSizes(chunks: map<ChunkId, seq<byte>>, fb: FileBufferRecord, d: FileBufferDiffState): Option<seq<nat>> {
    ResolvedSizes(chunks, BaseSimpleChunkList(fb.baseIds), false, d.fixedChunkSize,
                  if d.baseChunkSizes != [] then Some(d.baseChunkSizes) else None)
  }

  // NamedFileMgr::open_file_writer: from the saved state if there is one, else a new writer on the
  // base list, with its sizes resolved.  If the record holds a flushed writer, the same file comes back.
  method OpenFileWriter(store: NamedStore, fb: FileBufferRecord, ghost flushed: DiffChunkListWriter?)
    returns (r: Result<DiffChunkListWriter, Error>)
    ensures flushed != null && flushed.Valid() && Holds(fb, flushed) ==>
      r.Ok? && r.value.Valid() && r.value.Img() == flushed.Img() && r.value.Abs() == flushed.Abs() && r.value.Cut() == flushed.Cut()
    ensures HasWriterState(fb.diffState) ==>
      (r.Ok? <==>
        |fb.diffState.baseChunkSizes| == |fb.baseIds| &&
        Accepted(WriterStateFromDiffState(fb, fb.diffState), fb.diffFile.Read()))
    ensures !HasWriterState(fb.diffState) ==> (r.Ok? <==> StartSizes(store.chunks, fb, fb.diffState).Some?)
    ensures !HasWriterState(fb.diffState) && r.Ok? && TrueSizesOf(fb.baseIds, StartSizes(store.chunks, fb, fb.diffState).value) ==>
      r.value.Valid() && r.value.Abs() == Cursor(ListBytes(fb.baseIds), 0)
    ensures !HasWriterState(fb.diffState) && (forall id :: id in fb.baseIds ==> id.mix) ==>
      r.Ok? && r.value.Valid() && r.value.Abs() == Cursor(ListBytes(fb.baseIds), 0)
    ensures r.Ok? ==>
      fresh(r.value) && r.value.store == store && r.value.baseIds == fb.baseIds &&
      r.value.baseList == fb.baseList && r.value.diffFile == fb.diffFile &&
      r.value.fixedChunkSize == fb.diffState.fixedChunkSize && r.value.appendMergeLast == fb.diffState.appendMergeLast
  {
    hide Image.Flat, Sum, Flatten, Accepted, ResolvedSizes;
    var d := fb.diffState;
    if HasWriterState(d) {
      var s := WriterStateFromDiffState(fb, d);
      if flushed != null && flushed.Valid() && Holds(fb, flushed) {
        SavedReopens(flushed, s);
      }
      r := DiffChunkListWriter.OpenFromState(store, fb.baseIds, s);
    } else {
      var options := WriterOptions(false, false, d.fixedChunkSize,
                                   if d.baseChunkSizes != [] then Some(d.baseChunkSizes) else None, d.appendMergeLast);
      if flushed != null && flushed.Valid() && Holds(fb, flushed) { EmptyFileIsEmpty(fb, flushed); }
      MixStarts(store.chunks, fb, d);
      r := DiffChunkListWriter.Create(store, fb.baseList, BaseSimpleChunkList(fb.baseIds), options, fb.diffFile);
    }
  }

  // Without a saved state, identifiers that embed lengths are enough.
  lemma MixStarts(chunks: map<ChunkId, seq<byte>>, fb: FileBufferRecord, d: FileBufferDiffState)
    requires !HasWriterState(d)
    ensures (forall id :: id in fb.baseIds ==> id.mix) ==>
      StartSizes(chunks, fb, d).Some? && TrueSizesOf(fb.baseIds, StartSizes(chunks, fb, d).value)
  {
  }

  // A flushed writer leaves a state behind unless its file has no chunks at all, and then a new writer
  // is the same.
  lemma EmptyFileIsEmpty(fb: FileBufferRecord, w: DiffChunkListWriter)
    requires w.Valid() && Holds(fb, w) && !HasWriterState(fb.diffState)
    ensures fb.baseIds == [] && w.Img() == Image([], [], [], map[]) && w.position == 0
  {
  }

  // ---- closing and reopening is unobservable ----

  datatype FileOp = WriteOp(buf: seq<byte>) | SeekOp(from: SeekFrom) | ReopenOp | FlushAndOpenOp

  function StepFlat(c: Cursor, op: FileOp): (r: Cursor)
    requires c.Valid()
    ensures r.Valid()
  {
    match op
    case WriteOp(buf) => c.Write(buf)
    case SeekOp(from) => (match c.Seek(from) case Ok(d) => d case Err(_) => c)
    case ReopenOp => c
    case FlushAndOpenOp => c
  }

  // What a run of operations does to the flat file; reopening does not occur in it.
  function RunFlat(c: Cursor, ops: seq<FileOp>): (r: Cursor)
    requires c.Valid()
    ensures r.Valid()
  {
    if ops == [] then c
    else
      StepFlat(RunFlat(c, ops[..|ops| - 1]), ops[|ops| - 1])
  }

  function WithoutReopens(ops: seq<FileOp>): seq<FileOp> {
    if ops == [] then []
    else
      var last := ops[|ops| - 1];
      WithoutReopens(ops[..|ops| - 1]) + (if last.WriteOp? || last.SeekOp? then [last] else [])
  }

  lemma {:induction false} ReopensDoNotMatter(c: Cursor, ops: seq<FileOp>)
    requires c.Valid()
    ensures RunFlat(c, WithoutReopens(ops)) == RunFlat(c, ops)
  {
    if ops != [] {
      ReopensDoNotMatter(c, ops[..|ops| - 1]);
      var rest, last := WithoutReopens(ops[..|ops| - 1]), ops[|ops| - 1];
      if last.WriteOp? || last.SeekOp? {
        assert (rest + [last])[..|rest|] == rest;
      } else {
        assert WithoutReopens(ops) == rest;
      }
    }
  }

  // The chunk sizes after a run: each write cuts what it adds to the end, and nothing else changes them.
  function RunSizes(cut: Cutting, c: Cursor, sizes: seq<nat>, ops: seq<FileOp>): seq<nat>
    requires c.Valid()
  {
    if ops == [] then sizes
    else
      var n := |ops| - 1;
      StepSizes(cut, RunFlat(c, ops[..n]), RunSizes(cut, c, sizes, ops[..n]), ops[n])
  }

  function StepSizes(cut: Cutting, c: Cursor, sizes: seq<nat>, op: FileOp): seq<nat> {
    if op.WriteOp? then SizesAfter(cut, sizes, c.Growth(|op.buf|)) else sizes
  }

  // With the flag set, a file of even pieces of the preferred size, such as an empty one, is one after any run:
  // its chunks are those a fixed size cuts its length into.
  lemma {:induction false} RunStaysEven(cut: Cutting, c: Cursor, sizes: seq<nat>, ops: seq<FileOp>, f: nat)
    requires c.Valid() && Prefers(cut, f) && cut.mergeLast && EvenlyCut(sizes, f)
    ensures EvenlyCut(RunSizes(cut, c, sizes, ops), f)
  {
    hide Prefers, EvenlyCut, RunFlat;
    if ops != [] {
      var n := |ops| - 1;
      RunStaysEven(cut, c, sizes, ops[..n], f);
      if ops[n].WriteOp? {
        EvenStays(cut, RunSizes(cut, c, sizes, ops[..n]), RunFlat(c, ops[..n]).Growth(|ops[n].buf|), f);
      }
    }
  }

  method RunOp(w: DiffChunkListWriter, fb: FileBufferRecord, op: FileOp) returns (w2: DiffChunkListWriter)
    requires w.Valid() && w.BaseStored()
    requires fb.baseIds == w.baseIds && fb.baseList == w.baseList && fb.diffFile == w.diffFile
    modifies w, w.diffFile, w.store, fb
    ensures w2 == w || fresh(w2)
    ensures w2.Valid() && w2.BaseStored() && w2.store == w.store && w2.diffFile == w.diffFile
    ensures fb.baseIds == w2.baseIds && fb.baseList == w2.baseList
    ensures w2.Abs() == StepFlat(old(w.Abs()), op)
    ensures w2.Cut() == w.Cut() && w2.baseIds == w.baseIds
    ensures w2.mergedSizes == StepSizes(w.Cut(), old(w.Abs()), old(w.mergedSizes), op)
  {
    hide Image.Flat, Image.Settled, Cursor.Write, Cursor.Growth, SizesAfter;
    w2 := w;
    match op {
      case WriteOp(buf) =>
        var _ := w2.Write(buf);
      case SeekOp(from) =>
        var _ := w2.Seek(from);
      case ReopenOp =>
        w2 := w.Reopen();
      case FlushAndOpenOp =>
        w2 := FlushAndOpen(w, fb);
    }
  }

  method FlushAndOpen(w: DiffChunkListWriter, fb: FileBufferRecord) returns (w2: DiffChunkListWriter)
    requires w.Valid() && w.BaseStored()
    requires fb.baseIds == w.baseIds && fb.baseList == w.baseList && fb.diffFile == w.diffFile
    modifies w.diffFile, w.store, fb
    ensures fresh(w2) && w2.Valid() && w2.BaseStored() && w2.store == w.store && w2.diffFile == w.diffFile
    ensures fb.baseIds == w2.baseIds && fb.baseList == w2.baseList
    ensures w2.Abs() == old(w.Abs()) && w2.Img() == old(w.Img()) && w2.Cut() == w.Cut()
  {
    hide Image.Flat, Image.Settled, HasWriterState, StartSizes, Accepted;
    Flush(w, fb);
    var r := OpenFileWriter(w.store, fb, w);
    w2 := r.value;
  }

  // Any run on the chunked file, with closes and reopens anywhere in it, ends with the flat file
  // that the same run without them produces, cut into chunks as its writes alone cut it.
  method RunWriter(w0: DiffChunkListWriter, fb: FileBufferRecord, ops: seq<FileOp>)
    returns (w: DiffChunkListWriter)
    requires w0.Valid() && w0.BaseStored()
    requires fb.baseIds == w0.baseIds && fb.baseList == w0.baseList && fb.diffFile == w0.diffFile
    modifies w0, w0.diffFile, w0.store, fb
    ensures w.Valid() && w.Abs() == RunFlat(old(w0.Abs()), WithoutReopens(ops))
    ensures w.BaseStored() && w.store == w0.store && w.diffFile == w0.diffFile && w.baseIds == w0.baseIds && w.Cut() == w0.Cut()
    ensures w.mergedSizes == RunSizes(w0.Cut(), old(w0.Abs()), old(w0.mergedSizes), ops)
  {
    hide StepFlat, StepSizes, Image.Flat, Image.Settled, NamedStore.Valid, NamedStore.Has;
    ghost var c, sizes := w0.Abs(), w0.mergedSizes;
    w := w0;
    for i := 0 to |ops|
      invariant w == w0 || fresh(w)
      invariant w.Valid() && w.BaseStored() && w.store == w0.store && w.diffFile == w0.diffFile
      invariant fb.baseIds == w.baseIds && fb.baseList == w.baseList
      invariant w.Abs() == RunFlat(c, ops[..i])
      invariant w.Cut() == w0.Cut() && w.baseIds == w0.baseIds && w.mergedSizes == RunSizes(w0.Cut(), c, sizes, ops[..i])
    {
      assert ops[..i + 1][..i] == ops[..i];
      w := RunOp(w, fb, ops[i]);
    }
    assert ops[..|ops|] == ops;
    ReopensDoNotMatter(c, ops);
  }
}
