// Content-addressed chunks: identifiers, the named store, and chunk lists.
module ChunkStore {
  import opened Bytes

  datatype Error =
    | InvalidParam | InvalidData | NotFound | OffsetTooLarge | Unsupported | IoError

  // Hashing is ideal here: an identifier names the content it was computed from, so distinct
  // contents have distinct identifiers.  Only "mix" identifiers embed the content's length.
  datatype ChunkId = ChunkId(mix: bool, content: seq<byte>) {
    function GetLength(): Option<nat> {
      if mix then Some(|content|) else None
    }
  }

  // ChunkHasher::calc_mix_chunk_id_from_bytes
  function MixId(data: seq<byte>): ChunkId { ChunkId(true, data) }

  datatype ChunkList = ChunkList(totalSize: nat, body: seq<ChunkId>)

  // ChunkList::from_chunk_list: every identifier must embed its length.
  function FromChunkList(ids: seq<ChunkId>): (r: Result<ChunkList, Error>)
    ensures r.Ok? <==> forall i :: 0 <= i < |ids| ==> ids[i].mix
    ensures r.Ok? ==> r.value.body == ids && r.value.totalSize == |ListBytes(ids)|
  {
    if forall i :: 0 <= i < |ids| ==> ids[i].mix then
      FlattenLength(Contents(ids));
      Ok(ChunkList(Sum(Sizes(Contents(ids))), ids))
    else Err(InvalidParam)
  }

  function Contents(ids: seq<ChunkId>): (c: seq<seq<byte>>)
    ensures |c| == |ids|
  {
    seq(|ids|, i requires 0 <= i < |ids| => ids[i].content)
  }

  // What a chunk list stands for: the contents of its chunks, one after the other.
  function ListBytes(ids: seq<ChunkId>): seq<byte> {
    Flatten(Contents(ids))
  }

  // The bytes a reader gets by fetching every listed chunk from a store.
  function Fetch(chunks: map<ChunkId, seq<byte>>, ids: seq<ChunkId>): seq<byte>
    requires forall i :: 0 <= i < |ids| ==> ids[i] in chunks
  {
    Flatten(seq(|ids|, i requires 0 <= i < |ids| => chunks[ids[i]]))
  }

  lemma FetchIsListBytes(chunks: map<ChunkId, seq<byte>>, ids: seq<ChunkId>)
    requires forall id :: id in chunks ==> chunks[id] == id.content
    requires forall i :: 0 <= i < |ids| ==> ids[i] in chunks
    ensures Fetch(chunks, ids) == ListBytes(ids)
  {
    assert seq(|ids|, i requires 0 <= i < |ids| => chunks[ids[i]]) == Contents(ids);
  }

  class NamedStore {
    var chunks: map<ChunkId, seq<byte>>

    constructor ()
      ensures chunks == map[]
    {
      chunks := map[];
    }

    // A stored chunk hashes to the identifier it is stored under.
    ghost predicate Valid()
      reads this
    {
      forall id :: id in chunks ==> chunks[id] == id.content
    }

    ghost predicate Has(ids: seq<ChunkId>)
      reads this
    {
      forall i :: 0 <= i < |ids| ==> ids[i] in chunks
    }

    method ReadChunk(id: ChunkId) returns (data: seq<byte>)
      requires Valid() && id in chunks
      ensures data == id.content
    {
      data := chunks[id];
    }

    method HaveChunk(id: ChunkId) returns (have: bool)
      ensures have <==> id in chunks
    {
      have := id in chunks;
    }

    method PutChunk(id: ChunkId, data: seq<byte>)
      modifies this
      ensures chunks == old(chunks)[id := data]
      ensures old(Valid()) && data == id.content ==> Valid()
    {
      chunks := chunks[id := data];
    }
  }

  // The local file behind a diff path; None when it does not exist.
  class DiffFile {
    var data: Option<seq<byte>>

    constructor ()
      ensures data == None
    {
      data := None;
    }

    // fs::read, with a missing file read as empty.
    function Read(): seq<byte>
      reads this
    {
      if data.Some? then data.value else []
    }
  }
}
