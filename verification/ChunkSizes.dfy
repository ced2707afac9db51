// How the sizes of a chunk list are found: given by the caller, from the local store, from the
// identifiers, or by a fixed chunk size.
module ChunkSizes {
  import opened Bytes
  import opened ChunkStore

  // ---- a fixed chunk size ----

  // n chunks of size f, the last one taking whatever is left of the total.
  function FixedLayout(n: nat, total: nat, f: nat): (sizes: seq<nat>)
    requires 0 < n && (n - 1) * f <= total
    ensures |sizes| == n
  {
    seq(n, i requires 0 <= i < n => if i < n - 1 then f else total - (n - 1) * f)
  }

  // Without a recorded total every chunk gets the fixed size; otherwise each must get a byte of it.
  function FixedSizes(n: nat, total: nat, f: nat): Result<seq<nat>, Error> {
    if n == 0 then Ok([])
    else if f == 0 then Err(InvalidParam)
    else if total == 0 then Ok(seq(n, _ => f))
    else if (n - 1) * f < total then Ok(FixedLayout(n, total, f))
    else Err(InvalidParam)
  }

  lemma MulMonotonic(i: nat, n: nat, f: nat)
    requires i <= n
    ensures i * f <= n * f
  {
  }

  // resolve_fixed_chunk_sizes
  method ResolveFixedChunkSizes(n: nat, total: nat, f: nat) returns (r: Result<seq<nat>, Error>)
    ensures r == FixedSizes(n, total, f)
    ensures r.Ok? <==> n == 0 || (0 < f && (total == 0 || (n - 1) * f < total))
    ensures r.Ok? ==> |r.value| == n && forall i :: 0 <= i < n - 1 ==> r.value[i] == f
    ensures r.Ok? && 0 < n && total == 0 ==> r.value[n - 1] == f
    ensures r.Ok? && 0 < n && 0 < total ==> 0 < r.value[n - 1] && Sum(r.value) == total
  {
    if n == 0 { return Ok([]); }
    if f == 0 { return Err(InvalidParam); }
    if total == 0 { return Ok(seq(n, _ => f)); }
    var sizes: seq<nat> := [];
    var remaining: nat := total;
    for index := 0 to n
      invariant |sizes| == index
      invariant index < n ==> remaining == if index * f <= total then total - index * f else 0
      invariant 0 < index ==> (index - 1) * f < total
      invariant forall i :: 0 <= i < index && i < n - 1 ==>
        sizes[i] == f || (i == index - 1 && total <= index * f)
      invariant index == n ==> remaining == 0 && sizes[n - 1] == total - (n - 1) * f
    {
      if remaining == 0 {
        MulMonotonic(index, n - 1, f);
        return Err(InvalidParam);
      }
      var size := if index + 1 == n then remaining else Min(f, remaining);
      assert (index + 1) * f == index * f + f;
      sizes := sizes + [size];
      remaining := remaining - size;
    }
    if remaining != 0 { return Err(InvalidParam); }
    assert sizes == FixedLayout(n, total, f);
    FixedTotal(n, total, f);
    return Ok(sizes);
  }

  // ---- the other ways ----

  // resolve_mix_chunk_sizes
  function MixSizes(ids: seq<ChunkId>): (r: Option<seq<nat>>)
    ensures r.Some? <==> forall id :: id in ids ==> id.mix
    ensures r.Some? ==> r.value == Sizes(Contents(ids))
  {
    if forall i :: 0 <= i < |ids| ==> ids[i].mix then Some(Sizes(Contents(ids))) else None
  }

  // Every chunk can be opened locally, with the size expected of it if one is.
  predicate LocallyAvailable(chunks: map<ChunkId, seq<byte>>, ids: seq<ChunkId>, expected: Option<seq<nat>>) {
    forall i :: 0 <= i < |ids| ==>
      ids[i] in chunks &&
      (expected.Some? && i < |expected.value| ==> expected.value[i] == |chunks[ids[i]]|)
  }

  function LocalSizes(chunks: map<ChunkId, seq<byte>>, ids: seq<ChunkId>): (sizes: seq<nat>)
    requires forall i :: 0 <= i < |ids| ==> ids[i] in chunks
    ensures |sizes| == |ids|
  {
    seq(|ids|, i requires 0 <= i < |ids| => |chunks[ids[i]]|)
  }

  // ensure_chunks_available_in_local
  method EnsureLocal(store: NamedStore, ids: seq<ChunkId>, expected: Option<seq<nat>>)
    returns (r: Result<seq<nat>, Error>)
    requires expected.Some? ==> |expected.value| == |ids|
    ensures r.Ok? <==> LocallyAvailable(store.chunks, ids, expected)
    ensures r.Ok? ==> r.value == LocalSizes(store.chunks, ids)
  {
    var sizes: seq<nat> := [];
    for i := 0 to |ids|
      invariant |sizes| == i
      invariant forall k :: 0 <= k < i ==> ids[k] in store.chunks && sizes[k] == |store.chunks[ids[k]]|
      invariant forall k :: 0 <= k < i ==> expected.Some? ==> expected.value[k] == |store.chunks[ids[k]]|
    {
      if ids[i] !in store.chunks { return Err(NotFound); }
      var size := |store.chunks[ids[i]]|;
      if expected.Some? && expected.value[i] != size { return Err(InvalidData); }
      sizes := sizes + [size];
    }
    return Ok(sizes);
  }

  // What resolve_chunk_sizes_for_list finds, if anything.
  function ResolvedSizes(chunks: map<ChunkId, seq<byte>>, list: ChunkList, localMode: bool, fixedSize: Option<nat>,
                         explicit: Option<seq<nat>>): Option<seq<nat>>
  {
    if explicit.Some? then
      if |explicit.value| == |list.body| && (localMode ==> LocallyAvailable(chunks, list.body, explicit))
      then explicit else None
    else if localMode then
      if LocallyAvailable(chunks, list.body, None) then Some(LocalSizes(chunks, list.body)) else None
    else if MixSizes(list.body).Some? then MixSizes(list.body)
    else if fixedSize.Some? && FixedSizes(|list.body|, list.totalSize, fixedSize.value).Ok? then
      Some(FixedSizes(|list.body|, list.totalSize, fixedSize.value).value)
    else None
  }

  // resolve_chunk_sizes_for_list, and resolve_chunk_sizes of the plain reader
  method ResolveChunkSizes(store: NamedStore, list: ChunkList, localMode: bool, fixedSize: Option<nat>,
                           explicit: Option<seq<nat>>)
    returns (r: Result<seq<nat>, Error>)
    ensures r.Ok? <==> ResolvedSizes(store.chunks, list, localMode, fixedSize, explicit).Some?
    ensures r.Ok? ==> Some(r.value) == ResolvedSizes(store.chunks, list, localMode, fixedSize, explicit)
  {
    if explicit.Some? {
      if |explicit.value| != |list.body| { return Err(InvalidParam); }
      if localMode {
        var local := EnsureLocal(store, list.body, explicit);
        if local.Err? { return local; }
      }
      return Ok(explicit.value);
    }
    if localMode {
      r := EnsureLocal(store, list.body, None);
      return;
    }
    var mix := MixSizes(list.body);
    if mix.Some? { return Ok(mix.value); }
    if fixedSize.Some? {
      r := ResolveFixedChunkSizes(|list.body|, list.totalSize, fixedSize.value);
      return;
    }
    return Err(Unsupported);
  }

  // ---- when the sizes found are those of the chunks ----

  // The sizes are those of the chunks.
  ghost predicate TrueSizesOf(ids: seq<ChunkId>, sizes: seq<nat>) {
    sizes == Sizes(Contents(ids))
  }

  // Sizes from a store or from identifiers always are.
  lemma FoundSizesAreTrue(chunks: map<ChunkId, seq<byte>>, list: ChunkList, localMode: bool, fixedSize: Option<nat>,
                          explicit: Option<seq<nat>>)
    requires forall id :: id in chunks ==> chunks[id] == id.content
    requires localMode || (explicit.None? && MixSizes(list.body).Some?)
    requires ResolvedSizes(chunks, list, localMode, fixedSize, explicit).Some?
    ensures TrueSizesOf(list.body, ResolvedSizes(chunks, list, localMode, fixedSize, explicit).value)
  {
  }

  lemma {:induction false} FixedPrefix(n: nat, total: nat, f: nat, i: nat)
    requires 0 < n && (n - 1) * f <= total && i < n
    ensures Sum(FixedLayout(n, total, f)[..i]) == i * f
  {
    var sizes := FixedLayout(n, total, f);
    if i > 0 {
      FixedPrefix(n, total, f, i - 1);
      SumTake(sizes, i - 1);
      assert i * f == (i - 1) * f + f;
    }
  }

  lemma FixedTotal(n: nat, total: nat, f: nat)
    requires 0 < n && (n - 1) * f <= total
    ensures Sum(FixedLayout(n, total, f)) == total
  {
    var sizes := FixedLayout(n, total, f);
    FixedPrefix(n, total, f, n - 1);
    SumTake(sizes, n - 1);
    assert sizes[..n] == sizes;
  }

  // Sizes from a fixed size and a recorded total are, exactly if all chunks but the last have that size
  // and the total is that of the bytes.
  lemma FixedSizesAreTrue(ids: seq<ChunkId>, total: nat, f: nat)
    requires ids != [] && (|ids| - 1) * f < total
    ensures TrueSizesOf(ids, FixedLayout(|ids|, total, f)) <==>
      (forall i :: 0 <= i < |ids| - 1 ==> |ids[i].content| == f) && |ListBytes(ids)| == total
  {
    var n, sizes := |ids|, Sizes(Contents(ids));
    var fixed := FixedLayout(n, total, f);
    FlattenLength(Contents(ids));
    FixedTotal(n, total, f);
    if (forall i :: 0 <= i < n - 1 ==> |ids[i].content| == f) && |ListBytes(ids)| == total {
      SumTake(sizes, n - 1);
      FixedPrefix(n, total, f, n - 1);
      assert sizes[..n] == sizes && sizes[..n - 1] == fixed[..n - 1];
      assert sizes[n - 1] == fixed[n - 1];
      forall i | 0 <= i < n ensures sizes[i] == fixed[i] {
      }
    } else if sizes == fixed {
      forall i | 0 <= i < n - 1 ensures |ids[i].content| == f {
        assert sizes[i] == fixed[i];
      }
    }
  }
}
