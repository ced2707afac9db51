// How a diff chunk list is laid over its base list when it is read back, and the three ways of
// finding the sizes of its chunks: from the identifiers, given explicitly, or inferred.
module DiffSizing {
  import opened Bytes
  import opened ChunkStore
  import opened SortedKeys
  import opened FileImage
  import opened DiffWriter

  // The size inference can assume for a chunk that is not the last of the diff file.
  function KnownSize(index: nat, baseSizes: seq<nat>, fixedSize: Option<nat>): Option<nat> {
    if index < |baseSizes| then Some(baseSizes[index]) else fixedSize
  }

  ghost predicate Inferable(indices: seq<nat>, baseSizes: seq<nat>, fixedSize: Option<nat>) {
    forall j :: 0 <= j < |indices| - 1 ==> KnownSize(indices[j], baseSizes, fixedSize).Some?
  }

  // The sizes inference settles on: known ones, and whatever is left for the last chunk.
  ghost predicate Inferred(sizes: seq<nat>, indices: seq<nat>, baseSizes: seq<nat>, fixedSize: Option<nat>, fileSize: nat) {
    |sizes| == |indices| &&
    (forall j :: 0 <= j < |sizes| - 1 ==> KnownSize(indices[j], baseSizes, fixedSize) == Some(sizes[j])) &&
    (sizes != [] ==>
      var used := Sum(sizes[..|sizes| - 1]);
      sizes[|sizes| - 1] == if used <= fileSize then fileSize - used else 0)
  }

  function KnownSizes(indices: seq<nat>, baseSizes: seq<nat>, fixedSize: Option<nat>, n: nat): (sizes: seq<nat>)
    requires n <= |indices|
    ensures |sizes| == n
  {
    seq(n, j requires 0 <= j < n =>
      match KnownSize(indices[j], baseSizes, fixedSize)
      case Some(size) => size
      case None => 0)
  }

  // Every chunk but the last has a known size, and those sizes fit in the diff file.
  ghost predicate InferenceFits(indices: seq<nat>, baseSizes: seq<nat>, fixedSize: Option<nat>, fileSize: nat) {
    Inferable(indices, baseSizes, fixedSize) &&
    if indices == [] then fileSize == 0
    else Sum(KnownSizes(indices, baseSizes, fixedSize, |indices| - 1)) <= fileSize
  }

  // resolve_diff_chunk_sizes
  method ResolveDiffChunkSizes(indices: seq<nat>, chunkIds: Option<seq<ChunkId>>, baseSizes: seq<nat>,
                               fixedSize: Option<nat>, explicit: Option<seq<nat>>, fileSize: nat)
    returns (r: Result<seq<nat>, Error>)
    ensures chunkIds.Some? ==>
      (r.Ok? <==> forall id :: id in chunkIds.value ==> id.mix) &&
      (r.Ok? ==> r.value == Sizes(Contents(chunkIds.value)))
    ensures chunkIds.None? && explicit.Some? ==> r == Ok(explicit.value)
    ensures chunkIds.None? && explicit.None? ==>
      (r.Ok? <==> Inferable(indices, baseSizes, fixedSize)) &&
      (r.Ok? ==> Inferred(r.value, indices, baseSizes, fixedSize, fileSize))
  {
    if chunkIds.Some? {
      var ids := chunkIds.value;
      var lengths: seq<nat> := [];
      for i := 0 to |ids|
        invariant forall k :: 0 <= k < i ==> ids[k].mix
        invariant lengths == Sizes(Contents(ids))[..i]
      {
        if ids[i].GetLength().None? { return Err(Unsupported); }
        lengths := lengths + [ids[i].GetLength().value];
      }
      return Ok(lengths);
    }
    if explicit.Some? { return Ok(explicit.value); }
    var sizes: seq<nat> := [];
    var consumed: nat := 0;
    for i := 0 to |indices|
      invariant |sizes| == i
      invariant forall j :: 0 <= j < i && j < |indices| - 1 ==>
        KnownSize(indices[j], baseSizes, fixedSize) == Some(sizes[j])
      invariant i < |indices| ==> consumed == Sum(sizes)
      invariant i == |indices| && i > 0 ==>
        sizes[i - 1] == var used := Sum(sizes[..i - 1]); if used <= fileSize then fileSize - used else 0
    {
      if i + 1 == |indices| {
        var remaining: nat := if consumed <= fileSize then fileSize - consumed else 0;
        assert (sizes + [remaining])[..i] == sizes;
        sizes := sizes + [remaining];
        consumed := consumed + remaining;
      } else {
        var known := KnownSize(indices[i], baseSizes, fixedSize);
        if known.None? { return Err(Unsupported); }
        SumPush(sizes, known.value);
        sizes := sizes + [known.value];
        consumed := consumed + known.value;
      }
    }
    return Ok(sizes);
  }

  // ---- laying the segments of a diff file over the base chunks ----

  // Some(chunks) unless an entry would leave a gap after the chunks laid so far.
  function Overlay(base: seq<seq<byte>>, indices: seq<nat>, segments: seq<seq<byte>>, n: nat): Option<seq<seq<byte>>>
    requires n <= |indices| == |segments|
  {
    if n == 0 then Some(base)
    else
      match Overlay(base, indices, segments, n - 1)
      case None => None
      case Some(c) =>
        var k := indices[n - 1];
        if k < |c| then Some(c[k := segments[n - 1]])
        else if k == |c| then Some(c + [segments[n - 1]])
        else None
  }

  // Chunk k after laying entries with ascending indices: the entry for k, else the base chunk.
  ghost predicate LaidOver(c: seq<seq<byte>>, base: seq<seq<byte>>, indices: seq<nat>, segments: seq<seq<byte>>, n: nat)
    requires n <= |indices| == |segments|
  {
    |base| <= |c| &&
    (forall j :: 0 <= j < n ==> indices[j] < |c| && c[indices[j]] == segments[j]) &&
    (forall k :: 0 <= k < |c| && k !in indices[..n] ==> k < |base| && c[k] == base[k])
  }

  // Indices past the base list follow one another without a gap.
  ghost predicate Gapless(baseCount: nat, indices: seq<nat>) {
    forall j :: 0 <= j < |indices| && baseCount < indices[j] ==> j > 0 && indices[j - 1] == indices[j] - 1
  }

  lemma {:induction false} OverlayLays(base: seq<seq<byte>>, indices: seq<nat>, segments: seq<seq<byte>>, n: nat)
    requires n <= |indices| == |segments| && Ascending(indices) && Gapless(|base|, indices)
    ensures var r := Overlay(base, indices, segments, n);
            r.Some? && LaidOver(r.value, base, indices, segments, n)
            && |r.value| == if n > 0 && indices[n - 1] >= |base| then indices[n - 1] + 1 else |base|
  {
    if n > 0 {
      OverlayLays(base, indices, segments, n - 1);
      var c := Overlay(base, indices, segments, n - 1).value;
      var k := indices[n - 1];
      assert indices[..n] == indices[..n - 1] + [k];
      assert k <= |c|;
      var d := if k < |c| then c[k := segments[n - 1]] else c + [segments[n - 1]];
      forall j | 0 <= j < n ensures indices[j] < |d| && d[indices[j]] == segments[j] {
        assert j < n - 1 ==> indices[j] < k;
      }
    }
  }

  // ---- reading a finished writer back ----

  ghost predicate SavedDiff(img: Image, indices: seq<nat>, data: seq<byte>) {
    img.Settled() && indices == Sorted(img.dirty.Keys) && data == Flatten(DirtyChunks(img.dirty, indices))
  }

  // What closing or finalizing writes is what a reader of the diff starts from.
  lemma PersistedIsSaved(img: Image, indices: seq<nat>, sizes: seq<nat>, data: seq<byte>)
    requires img.Settled() && Persists(indices, sizes, data, img.dirty)
    ensures SavedDiff(img, indices, data) && sizes == TrueSizes(img, indices)
  {
  }

  // The first chunk from which on everything is dirty: the last base chunk if it is, else the end
  // of the base list.
  function TailStart(img: Image): nat {
    var m := |img.baseIds|;
    if m > 0 && m - 1 in img.dirty then m - 1 else m
  }

  lemma SavedIsGapless(img: Image, indices: seq<nat>)
    requires img.Settled() && indices == Sorted(img.dirty.Keys)
    ensures Gapless(|img.baseIds|, indices)
  {
    forall k: nat | |img.baseIds| <= k < |img.merged| ensures k in indices {
      assert k !in img.dirty ==> img.Clean(k);
    }
    forall k | k in indices ensures k < |img.merged| {
      assert k in img.dirty;
    }
    FullIsGapless(|img.baseIds|, |img.merged|, indices);
  }

  lemma FullIsGapless(baseCount: nat, count: nat, indices: seq<nat>)
    requires Ascending(indices) && forall k :: k in indices ==> k < count
    requires forall k: nat :: baseCount <= k < count ==> k in indices
    ensures Gapless(baseCount, indices)
  {
    forall j | 0 <= j < |indices| && baseCount < indices[j]
      ensures j > 0 && indices[j - 1] == indices[j] - 1
    {
      assert indices[j] in indices;
      Predecessor(indices, j, indices[j] - 1);
    }
  }

  lemma Predecessor(indices: seq<nat>, j: nat, before: nat)
    requires Ascending(indices) && j < |indices| && indices[j] == before + 1 && before in indices
    ensures j > 0 && indices[j - 1] == before
  {
    var i :| 0 <= i < |indices| && indices[i] == before;
    assert i < j;
  }

  lemma SavedFacts(img: Image, indices: seq<nat>, data: seq<byte>)
    requires SavedDiff(img, indices, data)
    ensures Ascending(indices) && Gapless(|img.baseIds|, indices)
    ensures forall k :: k in indices <==> k in img.dirty
    ensures forall k :: k in indices ==> k < |img.merged| && |img.dirty[k]| == img.merged[k] && img.Chunk(k) == img.dirty[k]
    ensures forall k :: 0 <= k < |img.merged| && k !in indices ==>
      k < |img.baseIds| && img.Chunk(k) == Contents(img.baseIds)[k]
    ensures |img.baseIds| <= |img.merged| && |img.baseSizes| == |img.baseIds|
    ensures forall i :: 0 <= i < |img.baseIds| - 1 ==> img.merged[i] == img.baseSizes[i]
  {
    SavedIsGapless(img, indices);
    forall k | k in indices ensures k < |img.merged| && |img.dirty[k]| == img.merged[k] && img.Chunk(k) == img.dirty[k] {
      DirtyChunkIsContent(img, k);
    }
    forall k: nat | k < |img.merged| && k !in indices ensures k < |img.baseIds| && img.Chunk(k) == img.baseIds[k].content {
      assert img.Clean(k);
    }
  }

  ghost function TrueSizes(img: Image, indices: seq<nat>): (sizes: seq<nat>)
    requires forall k :: k in indices ==> k in img.dirty
    ensures |sizes| == |indices|
  {
    Sizes(DirtyChunks(img.dirty, indices))
  }

  lemma TrueSegments(img: Image, indices: seq<nat>, data: seq<byte>, j: nat)
    requires SavedDiff(img, indices, data) && j < |indices|
    ensures Sum(TrueSizes(img, indices)) == |data|
    ensures indices[j] in img.dirty && Segment(data, TrueSizes(img, indices), j) == img.dirty[indices[j]]
  {
    assert indices[j] in indices;
    SegmentOfFlatten(DirtyChunks(img.dirty, indices), j);
  }

  // Sizes that are right for every dirty chunk before the tail, and add up to the diff file.
  ghost predicate RightBeforeTail(img: Image, indices: seq<nat>, data: seq<byte>, sizes: seq<nat>)
    requires SavedDiff(img, indices, data)
  {
    |sizes| == |indices| && Sum(sizes) == |data| &&
    forall j :: 0 <= j < |indices| && indices[j] < TailStart(img) ==> sizes[j] == TrueSizes(img, indices)[j]
  }

  // From the tail on, the diff entries are consecutive chunks up to the end of the file.
  lemma TailEntries(img: Image, indices: seq<nat>, data: seq<byte>)
    requires SavedDiff(img, indices, data)
    ensures TailStart(img) <= |img.merged| && Ascending(indices)
    ensures |indices| == CountBelow(indices, TailStart(img)) + (|img.merged| - TailStart(img))
    ensures forall j :: CountBelow(indices, TailStart(img)) <= j < |indices| ==>
      indices[j] == TailStart(img) + (j - CountBelow(indices, TailStart(img)))
  {
    SavedFacts(img, indices, data);
    TailIsDirty(|img.baseIds|, |img.merged|, indices, TailStart(img));
    hide SavedDiff, CountBelow, TailStart;
    ConsecutiveTail(indices, TailStart(img), |img.merged|);
  }

  lemma TailIsDirty(baseCount: nat, count: nat, indices: seq<nat>, c: nat)
    requires baseCount <= count && forall k: nat :: k < count && k !in indices ==> k < baseCount
    requires c == baseCount || (c == baseCount - 1 && c in indices)
    ensures c <= count && forall k: nat :: c <= k < count ==> k in indices
  {
  }

  // Cutting the rest of the diff file differently does not change it.
  lemma TailIsRest(data: seq<byte>, sizes: seq<nat>, j0: nat)
    requires j0 <= |sizes| && Sum(sizes) == |data|
    ensures Sum(sizes[..j0]) <= |data|
    ensures Flatten(Segments(data, sizes, |sizes|)[j0..]) == data[Sum(sizes[..j0])..]
  {
    hide Sum, Flatten;
    var segs := Segments(data, sizes, |sizes|);
    SegmentsTile(data, sizes, j0);
    SegmentsTile(data, sizes, |sizes|);
    assert sizes[..|sizes|] == sizes;
    assert segs[..j0] == Segments(data, sizes, j0);
    FlattenCut(segs, j0);
    CancelPrefix(data, Sum(sizes[..j0]), Flatten(segs[j0..]));
  }

  lemma CancelPrefix(data: seq<byte>, o: nat, rest: seq<byte>)
    requires o <= |data| && data[..|data|] == data[..o] + rest
    ensures rest == data[o..]
  {
    assert data == data[..o] + rest;
  }

  // Entries whose segments are the given chunks up to chunk c, and which are consecutive from
  // there: laid over the base list they are the chunks before c, then the rest of the diff file.
  lemma OverlayWithTail(base: seq<seq<byte>>, chunks: seq<seq<byte>>, indices: seq<nat>,
                        segs: seq<seq<byte>>, c: nat, j0: nat)
    requires |segs| == |indices| && Ascending(indices) && Gapless(|base|, indices) && |base| <= |chunks|
    requires c <= |chunks| && j0 <= |indices| && |indices| == j0 + (|chunks| - c)
    requires forall j :: j0 <= j < |indices| ==> indices[j] == c + (j - j0)
    requires forall j :: 0 <= j < j0 ==> indices[j] < c && segs[j] == chunks[indices[j]]
    requires forall k :: 0 <= k < |chunks| && k !in indices ==> k < |base| && chunks[k] == base[k]
    ensures var r := Overlay(base, indices, segs, |indices|);
            r.Some? && |r.value| == |chunks| && r.value[..c] == chunks[..c] && r.value[c..] == segs[j0..]
  {
    OverlayLays(base, indices, segs, |indices|);
    assert indices[..|indices|] == indices;
    LaidLength(|base|, |chunks|, indices, c, j0);
    LaidParts(Overlay(base, indices, segs, |indices|).value, base, chunks, indices, segs, c, j0);
  }

  lemma LaidParts(b: seq<seq<byte>>, base: seq<seq<byte>>, chunks: seq<seq<byte>>, indices: seq<nat>,
                  segs: seq<seq<byte>>, c: nat, j0: nat)
    requires |segs| == |indices| && |b| == |chunks| && c <= |chunks| && j0 <= |indices|
    requires forall j :: 0 <= j < |indices| ==> indices[j] < |b| && b[indices[j]] == segs[j]
    requires forall k :: 0 <= k < |b| && k !in indices ==> k < |base| && b[k] == base[k]
    requires |indices| == j0 + (|chunks| - c)
    requires forall j :: j0 <= j < |indices| ==> indices[j] == c + (j - j0)
    requires forall j :: 0 <= j < j0 ==> indices[j] < c && segs[j] == chunks[indices[j]]
    requires forall k :: 0 <= k < |chunks| && k !in indices ==> k < |base| && chunks[k] == base[k]
    ensures b[..c] == chunks[..c] && b[c..] == segs[j0..]
  {
    forall k | 0 <= k < c ensures b[k] == chunks[k] {
      if k in indices {
        var j :| 0 <= j < |indices| && indices[j] == k;
      }
    }
    forall k | c <= k < |chunks| ensures b[k] == segs[j0 + (k - c)] {
      assert indices[j0 + (k - c)] == k;
    }
    assert b[c..] == segs[j0..];
  }

  lemma LaidLength(baseCount: nat, count: nat, indices: seq<nat>, c: nat, j0: nat)
    requires c <= count && baseCount <= count && j0 <= |indices| && |indices| == j0 + (count - c)
    requires Ascending(indices) && forall j :: j0 <= j < |indices| ==> indices[j] == c + (j - j0)
    requires forall j :: 0 <= j < j0 ==> indices[j] < c
    requires forall k :: 0 <= k < count && k !in indices ==> k < baseCount
    ensures count == if |indices| > 0 && indices[|indices| - 1] >= baseCount then indices[|indices| - 1] + 1 else baseCount
  {
    var last: nat := if count > 0 then count - 1 else 0;
    if baseCount < count {
      assert last in indices;
      var j :| 0 <= j < |indices| && indices[j] == last;
      assert j < |indices| - 1 ==> indices[j] < indices[|indices| - 1];
    }
    assert |indices| > j0 ==> indices[|indices| - 1] == count - 1;
    assert 0 < |indices| == j0 ==> indices[j0 - 1] < c;
  }

  // ---- reading a finished writer back ----

  ghost function LaidChunks(img: Image, indices: seq<nat>, data: seq<byte>, sizes: seq<nat>): Option<seq<seq<byte>>>
    requires |sizes| == |indices| && Sum(sizes) <= |data|
  {
    Overlay(Contents(img.baseIds), indices, Segments(data, sizes, |indices|), |indices|)
  }

  // Segments depend only on the sizes up to them.
  lemma SameSegment(data: seq<byte>, sizes: seq<nat>, t: seq<nat>, j: nat)
    requires j < |sizes| && j < |t| && Sum(sizes) <= |data| && Sum(t) <= |data|
    requires forall i :: 0 <= i <= j ==> sizes[i] == t[i]
    ensures Segment(data, sizes, j) == Segment(data, t, j)
  {
    hide Sum;
    assert sizes[..j] == t[..j];
  }

  // Before the tail the segments are the true ones.
  lemma RightSegment(img: Image, indices: seq<nat>, data: seq<byte>, sizes: seq<nat>, j: nat)
    requires SavedDiff(img, indices, data) && RightBeforeTail(img, indices, data, sizes)
    requires Ascending(indices) && j < |indices| && indices[j] < TailStart(img)
    ensures indices[j] in img.dirty && indices[j] < |img.merged|
    ensures Segment(data, sizes, j) == img.Chunk(indices[j])
  {
    hide Sum, Flatten, Sorted, Segment, Image.Chunk, TrueSizes, TailStart, SavedDiff;
    SavedFacts(img, indices, data);
    assert indices[j] in indices;
    TrueSegments(img, indices, data, j);
    SameSegment(data, sizes, TrueSizes(img, indices), j);
  }

  lemma TrueSegmentList(img: Image, indices: seq<nat>, data: seq<byte>)
    requires SavedDiff(img, indices, data)
    ensures Sum(TrueSizes(img, indices)) == |data|
    ensures Segments(data, TrueSizes(img, indices), |indices|) == DirtyChunks(img.dirty, indices)
  {
    var chunks := DirtyChunks(img.dirty, indices);
    FlattenLength(chunks);
    hide Sum, Flatten, Sorted, Segment, Image.Settled;
    forall j | 0 <= j < |indices| ensures Segment(data, TrueSizes(img, indices), j) == chunks[j] {
      TrueSegments(img, indices, data, j);
    }
  }

  // The chunks of the tail are the dirty chunks from its first entry on.
  lemma TailChunks(img: Image, indices: seq<nat>, data: seq<byte>)
    requires SavedDiff(img, indices, data)
    ensures Ascending(indices) && TailStart(img) <= |img.merged|
    ensures CountBelow(indices, TailStart(img)) <= |indices|
    ensures img.Chunks()[TailStart(img)..] == DirtyChunks(img.dirty, indices)[CountBelow(indices, TailStart(img))..]
  {
    hide CountBelow, TailStart, SavedDiff, Image.Chunk;
    TailEntries(img, indices, data);
    SavedFacts(img, indices, data);
    forall j | 0 <= j < |indices| ensures indices[j] < |img.merged| && img.Chunk(indices[j]) == img.dirty[indices[j]] {
      assert indices[j] in indices;
    }
    TailOf(img.Chunks(), DirtyChunks(img.dirty, indices), indices, TailStart(img), CountBelow(indices, TailStart(img)));
  }

  lemma TailOf(chunks: seq<seq<byte>>, segs: seq<seq<byte>>, indices: seq<nat>, c: nat, j0: nat)
    requires |segs| == |indices| == j0 + (|chunks| - c) && c <= |chunks| && j0 <= |indices|
    requires forall j :: j0 <= j < |indices| ==> indices[j] == c + (j - j0)
    requires forall j :: 0 <= j < |indices| ==> indices[j] < |chunks| && chunks[indices[j]] == segs[j]
    ensures chunks[c..] == segs[j0..]
  {
    forall k | c <= k < |chunks| ensures chunks[k] == segs[j0 + (k - c)] {
      assert indices[j0 + (k - c)] == k;
    }
  }

  // The file is its chunks before the tail, then the rest of the diff file.
  lemma FlatWithTail(img: Image, indices: seq<nat>, data: seq<byte>)
    requires SavedDiff(img, indices, data)
    ensures Ascending(indices) && TailStart(img) <= |img.merged|
    ensures var o := Sum(TrueSizes(img, indices)[..CountBelow(indices, TailStart(img))]);
            o <= |data| && img.Flat() == Flatten(img.Chunks()[..TailStart(img)]) + data[o..]
  {
    hide Flatten, Sum, CountBelow, TailStart, SavedDiff, Segment, Image.Chunk, TrueSizes, Segments;
    SavedFacts(img, indices, data);
    TailChunks(img, indices, data);
    TrueSegmentList(img, indices, data);
    TailIsRest(data, TrueSizes(img, indices), CountBelow(indices, TailStart(img)));
    FlattenCut(img.Chunks(), TailStart(img));
  }

  // The segments before the tail are the chunks of the file at their indices.
  lemma SegmentsBeforeTail(img: Image, indices: seq<nat>, data: seq<byte>, sizes: seq<nat>)
    requires SavedDiff(img, indices, data) && RightBeforeTail(img, indices, data, sizes)
    requires Ascending(indices)
    ensures var j0 := CountBelow(indices, TailStart(img));
            forall j :: 0 <= j < j0 ==>
              indices[j] < TailStart(img) && indices[j] < |img.merged| &&
              Segments(data, sizes, |indices|)[j] == img.Chunks()[indices[j]]
  {
    hide Sum, Flatten, Sorted, Segment, Image.Chunk, TrueSizes, TailStart, SavedDiff;
    forall j: nat | j < CountBelow(indices, TailStart(img))
      ensures indices[j] < |img.merged| && Segment(data, sizes, j) == img.Chunk(indices[j])
    {
      RightSegment(img, indices, data, sizes, j);
    }
  }

  lemma UntouchedChunks(img: Image, indices: seq<nat>, data: seq<byte>)
    requires SavedDiff(img, indices, data)
    ensures Gapless(|Contents(img.baseIds)|, indices) && |img.baseIds| <= |img.Chunks()|
    ensures forall k :: 0 <= k < |img.Chunks()| && k !in indices ==>
      k < |Contents(img.baseIds)| && img.Chunks()[k] == Contents(img.baseIds)[k]
  {
    SavedFacts(img, indices, data);
    hide SavedDiff, Image.Chunk;
    forall k | 0 <= k < |img.Chunks()| && k !in indices ensures img.Chunks()[k] == img.Chunk(k) {}
  }

  lemma SamePrefix(img: Image, indices: seq<nat>, data: seq<byte>, sizes: seq<nat>)
    requires SavedDiff(img, indices, data) && RightBeforeTail(img, indices, data, sizes)
    requires Ascending(indices)
    ensures var j0 := CountBelow(indices, TailStart(img)); sizes[..j0] == TrueSizes(img, indices)[..j0]
  {
  }

  // Reading back with any such sizes gives the writer's bytes, even if chunk boundaries in the
  // tail differ: only the last base chunk can have grown, and all after it is dirty.
  lemma ReadBackIsFlat(img: Image, indices: seq<nat>, data: seq<byte>, sizes: seq<nat>)
    requires SavedDiff(img, indices, data) && RightBeforeTail(img, indices, data, sizes)
    ensures var r := LaidChunks(img, indices, data, sizes);
            r.Some? && Flatten(r.value) == img.Flat()
  {
    var c, segs := TailStart(img), Segments(data, sizes, |indices|);
    assert |sizes| == |indices| && Sum(sizes) == |data|;
    hide Flatten, Sum, CountBelow, TailStart, SavedDiff, RightBeforeTail, Segments, TrueSizes, Overlay,
         Contents, Image.Chunks, Image.Flat, Gapless;
    TailEntries(img, indices, data);
    var j0 := CountBelow(indices, c);
    FlatWithTail(img, indices, data);
    SamePrefix(img, indices, data, sizes);
    TailIsRest(data, sizes, j0);
    SegmentsBeforeTail(img, indices, data, sizes);
    UntouchedChunks(img, indices, data);
    OverlayWithTail(Contents(img.baseIds), img.Chunks(), indices, segs, c, j0);
    FlattenCut(LaidChunks(img, indices, data, sizes).value, c);
  }

  // The true sizes, from the identifiers or given explicitly.
  lemma TrueSizesAreRight(img: Image, indices: seq<nat>, data: seq<byte>)
    requires SavedDiff(img, indices, data)
    ensures RightBeforeTail(img, indices, data, TrueSizes(img, indices))
  {
    FlattenLength(DirtyChunks(img.dirty, indices));
  }

  // Inferred sizes are right before the tail as soon as the file length check accepts them.
  lemma InferredIsRight(img: Image, indices: seq<nat>, data: seq<byte>, sizes: seq<nat>, fixedSize: Option<nat>)
    requires SavedDiff(img, indices, data)
    requires Inferred(sizes, indices, img.baseSizes, fixedSize, |data|) && Sum(sizes) == |data|
    ensures RightBeforeTail(img, indices, data, sizes)
  {
    SavedFacts(img, indices, data);
    TrueSegmentList(img, indices, data);
    assert |sizes| == |indices|;
    hide Sum, Flatten, CountBelow, TrueSizes, SavedDiff, Sorted, TailStart, Inferred, Image.Chunk, DirtyChunks, Segments;
    var t, j0 := TrueSizes(img, indices), CountBelow(indices, TailStart(img));
    forall j: nat | j < |indices| - 1 && j < j0 ensures sizes[j] == t[j] {
      KnownBeforeTail(img, indices, data, j);
      InferredKnown(sizes, indices, img.baseSizes, fixedSize, |data|, j);
    }
    SumFixesLast(sizes, t, j0);
  }

  // Sizes that agree before j0, except perhaps for the very last, agree there if the sums do.
  lemma SumFixesLast(sizes: seq<nat>, t: seq<nat>, j0: nat)
    requires |sizes| == |t| && j0 <= |t| && Sum(sizes) == Sum(t)
    requires forall j :: 0 <= j < |t| - 1 && j < j0 ==> sizes[j] == t[j]
    ensures forall j :: 0 <= j < j0 ==> sizes[j] == t[j]
  {
    if j0 == |t| && j0 > 0 {
      assert sizes[..|t| - 1] == t[..|t| - 1];
    }
  }

  lemma InferredKnown(sizes: seq<nat>, indices: seq<nat>, baseSizes: seq<nat>, fixedSize: Option<nat>, fileSize: nat, j: nat)
    requires Inferred(sizes, indices, baseSizes, fixedSize, fileSize)
    requires j < |sizes| - 1 && indices[j] < |baseSizes|
    ensures sizes[j] == baseSizes[indices[j]]
  {
  }

  lemma KnownBeforeTail(img: Image, indices: seq<nat>, data: seq<byte>, j: nat)
    requires SavedDiff(img, indices, data) && j < |indices| && indices[j] < TailStart(img)
    ensures indices[j] < |img.baseSizes| && TrueSizes(img, indices)[j] == img.baseSizes[indices[j]]
  {
    SavedFacts(img, indices, data);
    assert indices[j] in indices;
  }

  // When the length check accepts inferred sizes: the known ones must fit in the file.
  lemma InferredAccepted(sizes: seq<nat>, indices: seq<nat>, baseSizes: seq<nat>, fixedSize: Option<nat>, fileSize: nat)
    requires Inferred(sizes, indices, baseSizes, fixedSize, fileSize)
    ensures Sum(sizes) == fileSize <==> InferenceFits(indices, baseSizes, fixedSize, fileSize)
  {
    if sizes != [] {
      assert KnownSizes(indices, baseSizes, fixedSize, |indices| - 1) == sizes[..|sizes| - 1];
    }
  }

  // Of the chunks before the last one, those written are as long as in the base list, and those added have the
  // fixed size.
  ghost predicate CutAsExpected(img: Image, fixedSize: Option<nat>) {
    forall k :: k in img.dirty && k < |img.merged| - 1 ==>
      if k < |img.baseSizes| then img.merged[k] == img.baseSizes[k] else fixedSize == Some(img.merged[k])
  }

  // The sizes of such a file can be inferred from its diff file.
  lemma ExpectedFits(img: Image, fixedSize: Option<nat>, indices: seq<nat>)
    requires img.Settled() && CutAsExpected(img, fixedSize) && indices == Sorted(img.dirty.Keys)
    ensures InferenceFits(indices, img.baseSizes, fixedSize, |Flatten(DirtyChunks(img.dirty, indices))|)
  {
    hide *;
    var chunks := DirtyChunks(img.dirty, indices);
    FlattenLength(chunks);
    SizeCount(chunks);
    forall j | 0 <= j < |indices| - 1 ensures KnownSize(indices[j], img.baseSizes, fixedSize) == Some(Sizes(chunks)[j]) {
      ExpectedKnown(img, fixedSize, indices, j);
      SizeOfDirty(img.dirty, indices, j);
    }
    KnownFit(indices, Sizes(chunks), img.baseSizes, fixedSize);
  }

  lemma SizeCount(chunks: seq<seq<byte>>)
    ensures |Sizes(chunks)| == |chunks|
  {
  }

  lemma SizeOfDirty(dirty: map<nat, seq<byte>>, indices: seq<nat>, j: nat)
    requires (forall k :: k in indices ==> k in dirty) && j < |indices|
    ensures |Sizes(DirtyChunks(dirty, indices))| == |indices| && indices[j] in dirty
    ensures Sizes(DirtyChunks(dirty, indices))[j] == |dirty[indices[j]]|
  {
  }

  lemma KnownFit(indices: seq<nat>, sizes: seq<nat>, baseSizes: seq<nat>, fixedSize: Option<nat>)
    requires |sizes| == |indices|
    requires forall j :: 0 <= j < |indices| - 1 ==> KnownSize(indices[j], baseSizes, fixedSize) == Some(sizes[j])
    ensures InferenceFits(indices, baseSizes, fixedSize, Sum(sizes))
  {
    if indices != [] {
      hide Sum, KnownSize;
      var n := |indices| - 1;
      assert KnownSizes(indices, baseSizes, fixedSize, n) == sizes[..n];
      SumPrefixLe(sizes, n, |sizes|);
      assert sizes[..|sizes|] == sizes;
    }
  }

  lemma ExpectedKnown(img: Image, fixedSize: Option<nat>, indices: seq<nat>, j: nat)
    requires img.Settled() && CutAsExpected(img, fixedSize) && indices == Sorted(img.dirty.Keys)
    requires j < |indices| - 1
    ensures indices[j] in img.dirty
    ensures KnownSize(indices[j], img.baseSizes, fixedSize) == Some(|img.dirty[indices[j]]|)
  {
    hide Sorted;
    assert indices[j] in indices && indices[j + 1] in indices;
  }
}
