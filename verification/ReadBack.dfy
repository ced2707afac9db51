// What reading gives: any run of seeks and reads on either reader is one on a flat file, and reading a
// closed or finalized writer back gives the writer's bytes.
module ReadBack {
  import opened Bytes
  import opened ChunkStore
  import opened ChunkSizes
  import opened SortedKeys
  import opened FileImage
  import opened AppendSizes
  import opened DiffWriter
  import opened FileBuffer
  import opened DiffSizing
  import opened ChunkReading

  datatype ReaderOp = StartSeekOp(from: SeekFrom) | PollCompleteOp | ReadOp(capacity: nat, budget: nat)

  datatype Output = Started(refused: bool) | At(position: nat) | Got(bytes: seq<byte>) | Failed

  // A reader of flat bytes, which may have a seek pending.
  datatype FlatReader = FlatReader(cursor: Cursor, pending: Option<nat>)

  // Everything a caller can observe of one operation, on flat bytes.
  ghost predicate FlatStep(s: FlatReader, op: ReaderOp, out: Output, t: FlatReader) {
    match op
    case StartSeekOp(from) =>
      (match s.cursor.Seek(from)
       case Ok(c) => out == Started(false) && t == s.(pending := Some(c.position))
       case Err(_) => out == Started(true) && t == s)
    case PollCompleteOp =>
      var at := if s.pending.Some? then s.pending.value else s.cursor.position;
      out == At(at) && t == FlatReader(Cursor(s.cursor.bytes, at), None)
    case ReadOp(capacity, _) =>
      if s.pending.Some? then out == Failed && t == s
      else out.Got? && Delivers(s.cursor, capacity, out.bytes, t.cursor) && t.pending == None
  }

  // Some bytes of the file from the position on, and none only at its end.
  ghost predicate Delivers(c: Cursor, capacity: nat, bytes: seq<byte>, d: Cursor) {
    |bytes| <= capacity && c.position + |bytes| <= |c.bytes| &&
    bytes == c.bytes[c.position..c.position + |bytes|] &&
    d == Cursor(c.bytes, c.position + |bytes|) &&
    (bytes == [] ==> capacity == 0 || c.position == |c.bytes|)
  }

  ghost function FlatOf(reader: DiffChunkListReader): FlatReader
    reads reader, reader.diffFile
  {
    FlatReader(reader.Abs(), reader.pendingSeek)
  }

  ghost predicate FlatRun(states: seq<FlatReader>, ops: seq<ReaderOp>, outs: seq<Output>) {
    |outs| == |ops| && |states| == |ops| + 1 &&
    forall i :: 0 <= i < |ops| ==> FlatStep(states[i], ops[i], outs[i], states[i + 1])
  }

  method RunOp(reader: DiffChunkListReader, op: ReaderOp) returns (out: Output)
    requires reader.Valid() && reader.SourcesStored()
    modifies reader
    ensures reader.Valid()
    ensures FlatStep(old(FlatOf(reader)), op, out, FlatOf(reader))
  {
    hide Flatten, Sum, SizedRight, Placed, DiffChunkListReader.AtChunk, DiffChunkListReader.Streaming, TableBytes;
    match op
    case StartSeekOp(from) =>
      var r := reader.StartSeek(from);
      out := Started(r.Err?);
    case PollCompleteOp =>
      var at := reader.PollComplete();
      out := At(at);
    case ReadOp(capacity, budget) =>
      var r := reader.Read(capacity, budget);
      assert reader.SourcesStored();
      out := if r.Ok? then Got(r.value) else Failed;
  }

  // Any sequence of seeks, completions and reads does on a chunked reader what it does on the flat file.
  method RunReader(reader: DiffChunkListReader, ops: seq<ReaderOp>) returns (outs: seq<Output>, ghost states: seq<FlatReader>)
    requires reader.Valid() && reader.SourcesStored()
    modifies reader
    ensures reader.Valid() && FlatRun(states, ops, outs)
    ensures states[0] == old(FlatOf(reader)) && states[|ops|] == FlatOf(reader)
  {
    hide FlatStep, FlatOf, DiffChunkListReader.Valid;
    outs, states := [], [FlatOf(reader)];
    for i := 0 to |ops|
      invariant reader.Valid() && reader.SourcesStored()
      invariant FlatRun(states, ops[..i], outs) && states[0] == old(FlatOf(reader)) && states[i] == FlatOf(reader)
    {
      var out := RunOp(reader, ops[i]);
      RunPush(states, ops[..i], outs, ops[i], out, FlatOf(reader));
      assert ops[..i + 1] == ops[..i] + [ops[i]];
      outs, states := outs + [out], states + [FlatOf(reader)];
    }
    assert ops[..|ops|] == ops;
  }

  lemma RunPush(states: seq<FlatReader>, ops: seq<ReaderOp>, outs: seq<Output>, op: ReaderOp, out: Output, t: FlatReader)
    requires FlatRun(states, ops, outs) && FlatStep(states[|ops|], op, out, t)
    ensures FlatRun(states + [t], ops + [op], outs + [out])
  {
  }

  // ---- what a flat run says about the bytes ----

  function Delivered(outs: seq<Output>): seq<byte> {
    if outs == [] then []
    else
      var last := outs[|outs| - 1];
      Delivered(outs[..|outs| - 1]) + (if last.Got? then last.bytes else [])
  }

  // Reads between two seeks deliver the file from the position on, without a gap.
  lemma {:induction false} ReadsAreConsecutive(states: seq<FlatReader>, ops: seq<ReaderOp>, outs: seq<Output>)
    requires FlatRun(states, ops, outs) && states[0].pending == None && states[0].cursor.Valid()
    requires forall i :: 0 <= i < |ops| ==> ops[i].ReadOp?
    ensures states[|ops|].pending == None && states[|ops|].cursor.bytes == states[0].cursor.bytes
    ensures states[0].cursor.position <= states[|ops|].cursor.position <= |states[0].cursor.bytes|
    ensures Delivered(outs) == states[0].cursor.bytes[states[0].cursor.position..states[|ops|].cursor.position]
  {
    if ops != [] {
      var n := |ops| - 1;
      RunPrefix(states, ops, outs, n);
      hide FlatRun, FlatStep;
      ReadsAreConsecutive(states[..n + 1], ops[..n], outs[..n]);
      OneRead(states[n], ops[n], outs[n], states[n + 1]);
      JoinSlices(states[0].cursor.bytes, states[0].cursor.position, states[n].cursor.position, states[n + 1].cursor.position);
    }
  }

  lemma RunPrefix(states: seq<FlatReader>, ops: seq<ReaderOp>, outs: seq<Output>, n: nat)
    requires FlatRun(states, ops, outs) && n < |ops|
    ensures FlatRun(states[..n + 1], ops[..n], outs[..n]) && FlatStep(states[n], ops[n], outs[n], states[n + 1])
  {
    hide FlatStep;
  }

  lemma OneRead(s: FlatReader, op: ReaderOp, out: Output, t: FlatReader)
    requires op.ReadOp? && s.pending == None && FlatStep(s, op, out, t)
    ensures t.pending == None && t.cursor.bytes == s.cursor.bytes && out.Got?
    ensures s.cursor.position <= t.cursor.position <= |s.cursor.bytes|
    ensures out.bytes == s.cursor.bytes[s.cursor.position..t.cursor.position]
  {
  }

  lemma JoinSlices(s: seq<byte>, a: nat, b: nat, c: nat)
    requires a <= b <= c <= |s|
    ensures s[a..b] + s[b..c] == s[a..c]
  {
  }

  // ---- reading to the end ----

  // Reads until nothing comes.  How many bytes each read delivers is up to the chunk readers.
  method ReadToEnd(reader: DiffChunkListReader, capacity: nat) returns (bytes: seq<byte>)
    requires reader.Valid() && reader.SourcesStored() && reader.pendingSeek == None && 0 < capacity
    modifies reader
    ensures reader.Valid() && old(reader.position) <= |old(reader.Abs()).bytes|
    ensures bytes == old(reader.Abs()).bytes[old(reader.position)..]
    ensures reader.Abs() == Cursor(old(reader.Abs()).bytes, |old(reader.Abs()).bytes|)
  {
    hide Flatten, Sum, SizedRight, Placed, DiffChunkListReader.AtChunk, DiffChunkListReader.Streaming, TableBytes;
    ghost var file, start := reader.Abs().bytes, reader.position;
    InFileRange(reader);
    bytes := [];
    var more := true;
    while more
      invariant reader.Valid() && reader.SourcesStored() && reader.pendingSeek == None
      invariant start <= reader.position <= |file| && reader.Abs() == Cursor(file, reader.position)
      invariant bytes == file[start..reader.position]
      invariant !more ==> reader.position == |file|
      decreases more, |file| - reader.position
    {
      var budget: nat := *;
      ghost var at := reader.position;
      var r := reader.Read(capacity, budget);
      assert reader.SourcesStored();
      JoinSlices(file, start, at, reader.position);
      bytes := bytes + r.value;
      more := r.value != [];
    }
  }

  lemma InFileRange(reader: DiffChunkListReader)
    requires reader.Valid()
    ensures reader.position <= |reader.Abs().bytes|
  {
    reader.TableLength();
  }

  // ---- reading a writer back ----

  // The sizes that can be found for the base list stay right when the store only gains chunks.
  lemma BaseStaysSized(before: map<ChunkId, seq<byte>>, after: map<ChunkId, seq<byte>>, list: ChunkList, options: ReaderOptions)
    requires BaseSized(before, list, options)
    requires forall i :: 0 <= i < |list.body| ==> list.body[i] in before && list.body[i] in after
    requires forall id :: id in before ==> before[id] == id.content
    requires forall id :: id in after ==> after[id] == id.content
    ensures BaseSized(after, list, options)
  {
    if options.localMode {
      assert LocallyAvailable(after, list.body, options.baseChunkSizes);
      if options.baseChunkSizes.None? {
        assert LocalSizes(after, list.body) == LocalSizes(before, list.body);
      }
    }
  }

  ghost predicate GivenSizesRight(w: DiffChunkListWriter, options: ReaderOptions)
    reads w
  {
    options.diffChunkSizes.Some? ==>
      options.diffChunkSizes.value == Sizes(DirtyChunks(w.dirtyChunks, Sorted(w.dirtyChunks.Keys)))
  }

  // Finalizing a file and reading its diff back gives its bytes, from wherever the reading starts: with
  // identifiers and with given sizes always, and with inferred sizes exactly when inference fits.
  method FinalizeThenRead(w: DiffChunkListWriter, declared: nat, namedMode: bool, options: ReaderOptions, from: SeekFrom,
                          capacity: nat)
    returns (r: Result<seq<byte>, Error>)
    requires w.Valid() && w.BaseStored() && 0 < capacity
    requires BaseSized(w.store.chunks, ChunkList(declared, w.baseIds), options) && GivenSizesRight(w, options)
    modifies w.diffFile, w.store
    ensures r.Ok? <==>
      Cursor(w.Abs().bytes, 0).Seek(from).Ok? &&
      (namedMode || options.diffChunkSizes.Some? ||
       InferenceFits(Sorted(w.dirtyChunks.Keys), w.baseSizes, options.fixedChunkSize, |w.diffFile.Read()|))
    ensures r.Ok? ==> r.value == w.Abs().bytes[Cursor(w.Abs().bytes, 0).Seek(from).value.position..]
    ensures w.diffFile.Read() == Flatten(DirtyChunks(w.dirtyChunks, Sorted(w.dirtyChunks.Keys)))
  {
    hide Sum, Flatten, Image.Flat, Image.Settled, Sorted, ResolvedSizes, InferenceFits;
    ghost var before := w.store.chunks;
    var list := ChunkList(declared, w.baseIds);
    var finished := w.Finalize(namedMode);
    var (diff, _) := finished.value;
    FinalizedDescribes(w, diff, options.diffChunkSizes);
    BaseStaysSized(before, w.store.chunks, list, options);
    hide Describes, BaseSized, BaseSizes;
    var reader := OpenDiffReader(w.store, list, diff, options, from, w.Img());
    if reader.Err? { return Err(reader.error); }
    reader.value.BaseIsEnough(w.baseIds);
    var bytes := ReadToEnd(reader.value, capacity);
    return Ok(bytes);
  }

  // A new file written in pieces of a fixed size, by any run of writes, seeks and reopens, is read back knowing no
  // more than that size.
  method WriteThenInfer(w0: DiffChunkListWriter, fb: FileBufferRecord, ops: seq<FileOp>, f: nat, from: SeekFrom, capacity: nat)
    returns (r: Result<seq<byte>, Error>)
    requires w0.Valid() && w0.BaseStored() && 0 < capacity
    requires fb.baseIds == w0.baseIds && fb.baseList == w0.baseList && fb.diffFile == w0.diffFile
    requires w0.baseIds == [] && 0 < f && w0.fixedChunkSize == Some(f) && w0.appendMergeLast && EvenlyCut(w0.mergedSizes, f)
    modifies w0, w0.diffFile, w0.store, fb
    ensures var file := Cursor(RunFlat(old(w0.Abs()), WithoutReopens(ops)).bytes, 0);
      match file.Seek(from)
      case Ok(c) => r == Ok(file.bytes[c.position..])
      case Err(_) => r.Err?
  {
    hide RunFlat, WithoutReopens, RunSizes, Sum, Flatten, Image.Flat, Prefers, Sorted, InferenceFits;
    FixedPreferred(w0.Cut(), f);
    RunStaysEven(w0.Cut(), w0.Abs(), w0.mergedSizes, ops, f);
    var w := RunWriter(w0, fb, ops);
    ghost var img := w.Img();
    assert CutAsExpected(img, Some(f));
    ExpectedFits(img, Some(f), Sorted(img.dirty.Keys));
    var options := ReaderOptions(false, Some(f), Some([]), None);
    r := FinalizeThenRead(w, 0, false, options, from, capacity);
  }

  lemma FinalizedDescribes(w: DiffChunkListWriter, diff: DiffChunkList, explicit: Option<seq<nat>>)
    requires w.Valid()
    requires Persists(diff.chunkIndices, Sizes(DirtyChunks(w.dirtyChunks, Sorted(w.dirtyChunks.Keys))), diff.diffFile.Read(), w.dirtyChunks)
    requires diff.chunkIds.Some? ==> diff.chunkIds.value == IdsOf(DirtyChunks(w.dirtyChunks, diff.chunkIndices))
    requires explicit.Some? ==> explicit.value == Sizes(DirtyChunks(w.dirtyChunks, Sorted(w.dirtyChunks.Keys)))
    ensures Describes(w.Img(), diff, w.baseIds, explicit)
  {
    PersistedIsSaved(w.Img(), diff.chunkIndices, Sizes(DirtyChunks(w.dirtyChunks, diff.chunkIndices)), diff.diffFile.Read());
  }

  // from_writer_state: closing a file and reading it back from the saved state gives its bytes.
  method CloseThenRead(w: DiffChunkListWriter, declared: nat, from: SeekFrom, capacity: nat) returns (r: Result<seq<byte>, Error>)
    requires w.Valid() && w.BaseStored() && 0 < capacity
    modifies w.diffFile, w.store
    ensures r.Ok? <==> Cursor(w.Abs().bytes, 0).Seek(from).Ok?
    ensures r.Ok? ==> r.value == w.Abs().bytes[Cursor(w.Abs().bytes, 0).Seek(from).value.position..]
  {
    hide Sum, Flatten, Image.Flat, Sorted;
    var closed := w.Close();
    var s := closed.value;
    var list := ChunkList(declared, w.baseIds);
    var diff := DiffChunkList(s.baseList, s.diffFile, s.chunkIndices, None);
    var options := ReaderOptions(s.localMode, s.fixedChunkSize, Some(s.baseChunkSizes), Some(s.diffChunkSizes));
    FinalizedDescribes(w, diff, options.diffChunkSizes);
    assert w.baseSizes == Sizes(Contents(w.baseIds));
    assert BaseSized(w.store.chunks, list, options);
    hide Describes, BaseSized, BaseSizes, Image.Settled;
    var reader := OpenDiffReader(w.store, list, diff, options, from, w.Img());
    if reader.Err? { return Err(reader.error); }
    reader.value.BaseIsEnough(w.baseIds);
    var bytes := ReadToEnd(reader.value, capacity);
    return Ok(bytes);
  }

  // The finished plain list, with the dirty chunks stored, reads back as the file too.
  method FinalizeThenReadList(w: DiffChunkListWriter, options: ReaderOptions, from: SeekFrom, capacity: nat)
    returns (r: Result<seq<byte>, Error>)
    requires w.Valid() && w.BaseStored() && 0 < capacity
    requires options.baseChunkSizes.Some? ==> options.baseChunkSizes.value == w.mergedSizes
    requires options.baseChunkSizes.Some? || options.localMode || forall id :: id in w.baseIds ==> id.mix
    modifies w.diffFile, w.store
    ensures r.Ok? <==> Cursor(w.Abs().bytes, 0).Seek(from).Ok?
    ensures r.Ok? ==> r.value == w.Abs().bytes[Cursor(w.Abs().bytes, 0).Seek(from).value.position..]
  {
    hide Sum, Flatten, Image.Flat, Sorted;
    var finished := w.Finalize(true);
    var (_, list) := finished.value;
    MergedSized(w.store, w.Img(), list, options);
    hide BaseSized, BaseSizes, Image.Settled;
    var reader := OpenChunkListReader(w.store, list, options, from);
    if reader.Err? { return Err(reader.error); }
    reader.value.BaseIsEnough(list.body);
    var bytes := ReadToEnd(reader.value, capacity);
    return Ok(bytes);
  }

  lemma MergedSized(store: NamedStore, img: Image, list: ChunkList, options: ReaderOptions)
    requires img.Settled() && list.body == MergedIds(img) && store.Valid() && store.Has(list.body)
    requires options.baseChunkSizes.Some? ==> options.baseChunkSizes.value == img.merged
    requires options.baseChunkSizes.Some? || options.localMode || forall id :: id in img.baseIds ==> id.mix
    ensures BaseSized(store.chunks, list, options)
  {
    MergedIdsKeepBytes(img);
    var sizes := Sizes(Contents(list.body));
    assert options.localMode ==> LocallyAvailable(store.chunks, list.body, options.baseChunkSizes);
    assert options.localMode ==> LocalSizes(store.chunks, list.body) == sizes;
  }
}
