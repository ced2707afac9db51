// The value behind a copy-on-write file: an immutable base list of chunks, the current chunk
// sizes, and a sparse map of dirty chunks.  Its meaning is one flat byte string with a cursor.
module FileImage {
  import opened Bytes
  import opened ChunkStore

  datatype SeekFrom = Start(offset: nat) | Current(delta: int) | End(delta: int)

  // The reference the chunked file is compared with: flat bytes and a position in them.
  datatype Cursor = Cursor(bytes: seq<byte>, position: nat) {
    ghost predicate Valid() { position <= |bytes| }

    function SeekTarget(from: SeekFrom): int {
      match from
      case Start(offset) => offset
      case Current(delta) => position + delta
      case End(delta) => |bytes| + delta
    }

    function Seek(from: SeekFrom): Result<Cursor, Error> {
      var t := SeekTarget(from);
      if t < 0 || t > |bytes| then Err(OffsetTooLarge) else Ok(Cursor(bytes, t))
    }

    function Write(data: seq<byte>): (c: Cursor)
      requires Valid()
      ensures c.Valid()
    {
      var tail := if position + |data| <= |bytes| then bytes[position + |data|..] else [];
      Cursor(bytes[..position] + data + tail, position + |data|)
    }

    // How many bytes longer writing n bytes makes the file.
    function Growth(n: nat): nat {
      if position + n <= |bytes| then 0 else position + n - |bytes|
    }
  }

  // Seeking from the start goes to the offset, from the current position by so many bytes, and from the end by
  // so many bytes from there; it is refused outside the file.  What is written at the end is appended.
  lemma SeekMeans(c: Cursor, n: int, data: seq<byte>)
    requires c.Valid() && 0 <= n
    ensures n <= |c.bytes| ==> c.Seek(Start(n)) == Ok(Cursor(c.bytes, n))
    ensures n > |c.bytes| ==> c.Seek(Start(n)).Err? && c.Seek(Current(n)).Err? && c.Seek(End(-n)).Err?
    ensures c.position + n <= |c.bytes| ==> c.Seek(Current(n)) == Ok(Cursor(c.bytes, c.position + n))
    ensures n <= c.position ==> c.Seek(Current(-n)) == Ok(Cursor(c.bytes, c.position - n))
    ensures n <= |c.bytes| ==> c.Seek(End(-n)) == Ok(Cursor(c.bytes, |c.bytes| - n))
    ensures 0 < n ==> c.Seek(End(n)).Err?
    ensures c.Seek(End(0)).Ok? && c.Seek(End(0)).value.Write(data).bytes == c.bytes + data
  {
  }

  // A write changes the bytes it covers and no others, and lengthens the file only past its end.
  lemma WriteMeans(c: Cursor, data: seq<byte>)
    requires c.Valid()
    ensures var d := c.Write(data);
            d.position == c.position + |data| && |d.bytes| == Max(|c.bytes|, c.position + |data|) &&
            |d.bytes| == |c.bytes| + c.Growth(|data|) &&
            d.bytes[c.position..d.position] == data &&
            forall i :: 0 <= i < |c.bytes| && !(c.position <= i < d.position) ==> d.bytes[i] == c.bytes[i]
  {
  }

  datatype Image = Image(
    baseIds: seq<ChunkId>, baseSizes: seq<nat>, merged: seq<nat>, dirty: map<nat, seq<byte>>)
  {
    // What materializing chunk i yields: dirty bytes, else the base chunk, cut or zero-padded.
    function Chunk(i: nat): (c: seq<byte>)
      requires i < |merged|
      ensures |c| == merged[i]
    {
      Resize(if i in dirty then dirty[i] else if i < |baseIds| then baseIds[i].content else [],
             merged[i])
    }

    function Chunks(): (c: seq<seq<byte>>)
      ensures |c| == |merged|
    {
      seq(|merged|, i requires 0 <= i < |merged| => Chunk(i))
    }

    function Flat(): seq<byte> { Flatten(Chunks()) }

    // The sizes recorded for the base list are those of its chunks.
    ghost predicate BaseKnown() {
      |baseSizes| == |baseIds| && forall i :: 0 <= i < |baseIds| ==> baseSizes[i] == |baseIds[i].content|
    }

    ghost predicate DirtyFits() {
      forall i :: i in dirty ==> i < |merged| && |dirty[i]| == merged[i]
    }

    ghost predicate Clean(i: nat)
      requires |baseSizes| == |baseIds| && i < |merged|
    {
      i < |baseIds| && merged[i] == baseSizes[i]
    }

    // Only the last base chunk may have another size than in the base list.
    ghost predicate BaseShape() {
      |baseIds| <= |merged| && |baseSizes| == |baseIds| &&
      forall i :: 0 <= i < |baseIds| - 1 ==> merged[i] == baseSizes[i]
    }

    // Holds between any two calls of the writer: whatever is not dirty is an unchanged base chunk.
    ghost predicate Settled() {
      BaseKnown() && DirtyFits() && BaseShape() &&
      forall i :: 0 <= i < |merged| && i !in dirty ==> Clean(i)
    }

    // Holds in the middle of a write: the last chunk may have just been grown or added.
    ghost predicate Extended() {
      BaseKnown() && DirtyFits() && BaseShape() && merged != [] &&
      forall i :: 0 <= i < |merged| - 1 && i !in dirty ==> Clean(i)
    }

    lemma ChunkSizes()
      ensures Sizes(Chunks()) == merged
      ensures |Flat()| == Sum(merged)
    {
      FlattenLength(Chunks());
      assert Sizes(Chunks()) == merged;
    }
  }

  // ---- what a closed writer leaves in its diff file ----

  function DirtyChunks(dirty: map<nat, seq<byte>>, keys: seq<nat>): (c: seq<seq<byte>>)
    requires forall k :: k in keys ==> k in dirty
    ensures |c| == |keys|
  {
    seq(|keys|, j requires 0 <= j < |keys| => dirty[keys[j]])
  }

  // Segment j of a diff file cut by the given sizes.
  function Segment(data: seq<byte>, sizes: seq<nat>, j: nat): (r: seq<byte>)
    requires j < |sizes| && Sum(sizes) <= |data|
    ensures |r| == sizes[j]
  {
    SumSplit(sizes, j);
    data[Sum(sizes[..j])..Sum(sizes[..j]) + sizes[j]]
  }

  function Segments(data: seq<byte>, sizes: seq<nat>, n: nat): (segs: seq<seq<byte>>)
    requires n <= |sizes| && Sum(sizes) <= |data|
    ensures |segs| == n
  {
    seq(n, j requires 0 <= j < n => Segment(data, sizes, j))
  }

  lemma PrefixJoin(data: seq<byte>, o: nat, n: nat)
    requires o + n <= |data|
    ensures data[..o] + data[o..o + n] == data[..o + n]
  {
  }

  // The segments of a diff file tile it: put back together they are the whole file.
  lemma {:induction false} SegmentsTile(data: seq<byte>, sizes: seq<nat>, n: nat)
    requires n <= |sizes| && Sum(sizes) <= |data|
    ensures Sum(sizes[..n]) <= |data|
    ensures Flatten(Segments(data, sizes, n)) == data[..Sum(sizes[..n])]
  {
    SumPrefixLe(sizes, n, |sizes|);
    assert sizes[..|sizes|] == sizes;
    if n > 0 {
      SegmentsTile(data, sizes, n - 1);
      NextSegment(data, sizes, n - 1);
    }
  }

  lemma NextSegment(data: seq<byte>, sizes: seq<nat>, n: nat)
    requires n < |sizes| && Sum(sizes) <= |data| && Sum(sizes[..n]) <= |data|
    requires Flatten(Segments(data, sizes, n)) == data[..Sum(sizes[..n])]
    ensures Sum(sizes[..n + 1]) <= |data|
    ensures Flatten(Segments(data, sizes, n + 1)) == data[..Sum(sizes[..n + 1])]
  {
    hide Flatten, Sum;
    SumSplit(sizes, n);
    FlattenPush(Segments(data, sizes, n), Segment(data, sizes, n));
    assert Segments(data, sizes, n + 1) == Segments(data, sizes, n) + [Segment(data, sizes, n)];
    PrefixJoin(data, Sum(sizes[..n]), sizes[n]);
  }

  // Cutting concatenated chunks by their own sizes gives them back.
  lemma SegmentOfFlatten(chunks: seq<seq<byte>>, j: nat)
    requires j < |chunks|
    ensures |Flatten(chunks)| == Sum(Sizes(chunks))
    ensures Segment(Flatten(chunks), Sizes(chunks), j) == chunks[j]
  {
    hide Flatten, Sum;
    FlattenLength(chunks);
    FlattenSlice(chunks, j);
  }

  // ---- the merged chunk list ----

  function MergedIds(img: Image): (ids: seq<ChunkId>)
    requires forall i :: 0 <= i < |img.merged| && i !in img.dirty ==> i < |img.baseIds|
    ensures |ids| == |img.merged|
  {
    seq(|img.merged|, i requires 0 <= i < |img.merged| =>
      if i in img.dirty then MixId(img.dirty[i]) else img.baseIds[i])
  }

  // Compiling a settled file to a plain chunk list keeps its bytes.
  lemma MergedIdsKeepBytes(img: Image)
    requires img.Settled()
    ensures ListBytes(MergedIds(img)) == img.Flat()
    ensures Sizes(Contents(MergedIds(img))) == img.merged
  {
    assert forall i :: 0 <= i < |img.merged| && i !in img.dirty ==> img.Clean(i);
    var c := Contents(MergedIds(img));
    forall i | 0 <= i < |img.merged|
      ensures c[i] == img.Chunk(i)
    {
    }
    assert c == img.Chunks();
    img.ChunkSizes();
  }

  // ---- steps of a write ----

  function Grown(img: Image, grow: nat): Image
    requires img.merged != []
  {
    var k := |img.merged| - 1;
    var size := img.merged[k] + grow;
    img.(merged := img.merged[k := size],
         dirty := if k in img.dirty then img.dirty[k := Resize(img.dirty[k], size)] else img.dirty)
  }

  function Pushed(img: Image, added: nat): Image {
    img.(merged := img.merged + [added])
  }

  function Materialized(img: Image, k: nat): Image
    requires k < |img.merged|
  {
    img.(dirty := img.dirty[k := img.Chunk(k)])
  }

  function Written(img: Image, k: nat, at: nat, data: seq<byte>): Image
    requires k in img.dirty && at + |data| <= |img.dirty[k]|
  {
    img.(dirty := img.dirty[k := Overwrite(img.dirty[k], at, data)])
  }

  // Appending a chunk to the flat bytes, or extending the last one, when the rest is the same.
  lemma FlatGrows(img: Image, img2: Image, grow: nat)
    requires img.merged != [] && |img2.merged| == |img.merged|
    requires forall i :: 0 <= i < |img.merged| - 1 ==> img2.Chunk(i) == img.Chunk(i)
    requires img2.Chunk(|img.merged| - 1) == img.Chunk(|img.merged| - 1) + Zeros(grow)
    ensures img2.Flat() == img.Flat() + Zeros(grow)
    ensures Sum(img2.merged) == Sum(img.merged) + grow
  {
    hide Image.Chunk;
    var k := |img.merged| - 1;
    assert img2.Chunks()[..k] == img.Chunks()[..k];
    img.ChunkSizes();
    img2.ChunkSizes();
  }

  lemma GrowLast(img: Image, grow: nat)
    requires img.Settled() && img.merged != []
    ensures Grown(img, grow).Extended()
    ensures Grown(img, grow).Flat() == img.Flat() + Zeros(grow)
    ensures Sum(Grown(img, grow).merged) == Sum(img.merged) + grow
  {
    var k := |img.merged| - 1;
    var img2 := Grown(img, grow);
    forall i | 0 <= i < k ensures img2.Chunk(i) == img.Chunk(i) {}
    forall i | 0 <= i < k && i !in img2.dirty ensures img2.Clean(i) {
      assert img.Clean(i);
    }
    if k !in img.dirty { assert img.Clean(k); }
    FlatGrows(img, img2, grow);
  }

  lemma PushChunk(img: Image, added: nat)
    requires img.Settled()
    ensures Pushed(img, added).Extended()
    ensures Pushed(img, added).Flat() == img.Flat() + Zeros(added)
    ensures Sum(Pushed(img, added).merged) == Sum(img.merged) + added
  {
    var img2 := Pushed(img, added);
    forall i | 0 <= i < |img2.merged| - 1 && i !in img2.dirty ensures img2.Clean(i) {
      assert img.Clean(i);
    }
    assert img2.Chunks()[..|img.merged|] == img.Chunks();
    assert |img.merged| !in img.dirty;
    assert img2.Chunk(|img.merged|) == Zeros(added);
    SumPush(img.merged, added);
  }

  // Making a chunk dirty changes no byte, and settles a file whose last chunk it is.
  lemma MaterializeChunk(img: Image, k: nat)
    requires img.Settled() || (img.Extended() && k == |img.merged| - 1)
    requires k < |img.merged|
    ensures Materialized(img, k).Settled()
    ensures Materialized(img, k).Flat() == img.Flat()
  {
    var img2 := Materialized(img, k);
    forall i | 0 <= i < |img2.merged| && i !in img2.dirty ensures img2.Clean(i) {
      assert img.Clean(i);
    }
    forall i | 0 <= i < |img.merged| ensures img2.Chunk(i) == img.Chunk(i) {}
    assert img2.Chunks() == img.Chunks();
  }

  // A dirty chunk of a settled file is its own content.
  lemma DirtyChunkIsContent(img: Image, k: nat)
    requires img.DirtyFits() && k in img.dirty
    ensures img.Chunk(k) == img.dirty[k]
  {
  }

  lemma WrittenSettled(img: Image, k: nat, at: nat, data: seq<byte>)
    requires img.Settled() && k in img.dirty && at + |data| <= img.merged[k]
    ensures Written(img, k, at, data).Settled()
  {
    var img2 := Written(img, k, at, data);
    forall i | 0 <= i < |img2.merged| && i !in img2.dirty ensures img2.Clean(i) {
      assert img.Clean(i);
    }
  }

  lemma OverwriteDirty(img: Image, k: nat, at: nat, data: seq<byte>)
    requires img.Settled() && k in img.dirty && at + |data| <= img.merged[k]
    ensures var o := Sum(img.merged[..k]) + at;
            o + |data| <= |img.Flat()|
            && Written(img, k, at, data).Flat() == Overwrite(img.Flat(), o, data)
  {
    hide Overwrite, Sum, Flatten;
    var img2 := Written(img, k, at, data);
    WrittenSettled(img, k, at, data);
    img.ChunkSizes();
    DirtyChunkIsContent(img, k);
    DirtyChunkIsContent(img2, k);
    FlattenOverwrite(img.Chunks(), k, at, data);
    assert forall i :: 0 <= i < |img.merged| && i != k ==> img2.Chunk(i) == img.Chunk(i);
    assert img2.Chunks() == img.Chunks()[k := Overwrite(img.Chunks()[k], at, data)];
  }

  // An untouched base list.
  lemma BaseImage(ids: seq<ChunkId>, sizes: seq<nat>)
    requires |sizes| == |ids| && forall i :: 0 <= i < |ids| ==> sizes[i] == |ids[i].content|
    ensures var img := Image(ids, sizes, sizes, map[]);
            img.Settled() && img.Flat() == ListBytes(ids) && |ListBytes(ids)| == Sum(sizes)
  {
    var img := Image(ids, sizes, sizes, map[]);
    forall i | 0 <= i < |ids| ensures img.Chunk(i) == ids[i].content {}
    assert img.Chunks() == Contents(ids);
    img.ChunkSizes();
  }

  // ---- writes in steps ----

  lemma WriteNothing(c: Cursor)
    requires c.Valid()
    ensures c.Write([]) == c
  {
  }

  lemma WriteInSteps(c: Cursor, first: seq<byte>, second: seq<byte>)
    requires c.Valid()
    ensures c.Write(first).Write(second) == c.Write(first + second)
  {
  }

  lemma WriteMore(before: Cursor, c: Cursor, buf: seq<byte>, written: nat, len: nat)
    requires before.Valid() && written + len <= |buf| && c == before.Write(buf[..written])
    ensures c.Write(buf[written..written + len]) == before.Write(buf[..written + len])
  {
    WriteInSteps(before, buf[..written], buf[written..written + len]);
    assert buf[..written] + buf[written..written + len] == buf[..written + len];
  }

  // A position past all chunks but the last is in the last.
  lemma LocatedInLast(sizes: seq<nat>, k: nat, offset: nat)
    requires k < |sizes| && offset < sizes[k]
    requires Sum(sizes[..|sizes| - 1]) <= Sum(sizes[..k]) + offset
    ensures k == |sizes| - 1 && Sum(sizes) == Sum(sizes[..k]) + sizes[k]
  {
    hide Sum;
    SumSplit(sizes, k);
    SumSplit(sizes, |sizes| - 1);
    SumPrefixLe(sizes, Min(k + 1, |sizes| - 1), |sizes| - 1);
    assert sizes[..|sizes|] == sizes;
  }

  // Overwriting in place, or overwriting exactly the zero fill just added, is a write.
  lemma OverwriteIsWrite(flat: seq<byte>, at: nat, padded: seq<byte>, part: seq<byte>)
    requires at + |part| <= |padded|
    requires padded == flat || (at == |flat| && padded == flat + Zeros(|part|))
    ensures at <= |flat| && Cursor(flat, at).Write(part) == Cursor(Overwrite(padded, at, part), at + |part|)
  {
  }

  // Copying into a dirty chunk, in place or over exactly the zero fill just added, is a write.
  lemma CopyStep(img: Image, flat: seq<byte>, at: nat, k: nat, offset: nat, part: seq<byte>)
    requires img.Settled() && k in img.dirty && offset + |part| <= img.merged[k]
    requires at == Sum(img.merged[..k]) + offset
    requires img.Flat() == flat || (at == |flat| && img.Flat() == flat + Zeros(|part|))
    ensures at <= |flat|
    ensures var img2 := Written(img, k, offset, part);
            img2.Settled() && |img2.Flat()| == Sum(img2.merged) && at + |part| <= |img2.Flat()|
            && Cursor(img2.Flat(), at + |part|) == Cursor(flat, at).Write(part)
  {
    hide Overwrite, Cursor.Write, Image.Flat, Sum;
    img.ChunkSizes();
    OverwriteDirty(img, k, offset, part);
    WrittenSettled(img, k, offset, part);
    OverwriteIsWrite(flat, at, img.Flat(), part);
    Written(img, k, offset, part).ChunkSizes();
  }
}
