// How an append is cut into chunks, told in sizes alone.
module AppendSizes {
  import opened Bytes
  import opened ChunkStore
  import opened ChunkSizes

  // What decides where the chunks of an append end: a fixed size, the sizes of the base list, and whether a
  // short last chunk is filled up first.
  datatype Cutting = Cutting(fixedSize: Option<nat>, baseSizes: seq<nat>, mergeLast: bool)

  function MaxOf(sizes: seq<nat>): (m: nat)
    ensures forall i :: 0 <= i < |sizes| ==> sizes[i] <= m
    ensures m == 0 || m in sizes
  {
    if sizes == [] then 0 else Max(MaxOf(sizes[..|sizes| - 1]), sizes[|sizes| - 1])
  }

  function PreferredSize(cut: Cutting, remaining: nat): (n: nat)
    ensures 0 < n
  {
    var base := cut.baseSizes;
    if cut.fixedSize.Some? && 0 < cut.fixedSize.value then cut.fixedSize.value
    else if 1 < |base| && 0 < MaxOf(base[..|base| - 1]) then MaxOf(base[..|base| - 1])
    else if base != [] && 0 < base[|base| - 1] then base[|base| - 1]
    else Max(remaining, 1)
  }

  // The sizes once room is made at the end for some of the remaining bytes: a short last chunk grows if the
  // flag is set, else there is one chunk more.
  function RoomFor(cut: Cutting, sizes: seq<nat>, remaining: nat): (r: seq<nat>)
    requires 0 < remaining
    ensures Sum(sizes) < Sum(r) <= Sum(sizes) + remaining
  {
    var preferred, last := PreferredSize(cut, remaining), |sizes| - 1;
    if cut.mergeLast && sizes != [] && sizes[last] < preferred then
      var grow := Min(preferred - sizes[last], remaining);
      var r := sizes[last := sizes[last] + grow];
      assert r[..last] == sizes[..last];
      r
    else
      assert (sizes + [Min(remaining, preferred)])[..|sizes|] == sizes;
      sizes + [Min(remaining, preferred)]
  }

  lemma RoomPushed(cut: Cutting, sizes: seq<nat>, remaining: nat)
    requires 0 < remaining
    requires !cut.mergeLast || sizes == [] || PreferredSize(cut, remaining) <= sizes[|sizes| - 1]
    ensures RoomFor(cut, sizes, remaining) == sizes + [Min(remaining, PreferredSize(cut, remaining))]
  {
    hide PreferredSize;
  }

  lemma RoomGrown(cut: Cutting, sizes: seq<nat>, remaining: nat)
    requires 0 < remaining && cut.mergeLast && sizes != [] && sizes[|sizes| - 1] < PreferredSize(cut, remaining)
    ensures RoomFor(cut, sizes, remaining) ==
      sizes[|sizes| - 1 := sizes[|sizes| - 1] + Min(PreferredSize(cut, remaining) - sizes[|sizes| - 1], remaining)]
  {
    hide PreferredSize;
  }

  // The sizes once a write has added some bytes to the end.
  function SizesAfter(cut: Cutting, sizes: seq<nat>, growth: nat): (r: seq<nat>)
    ensures Sum(r) == Sum(sizes) + growth
    decreases growth
  {
    if growth == 0 then sizes
    else
      var next := RoomFor(cut, sizes, growth);
      SizesAfter(cut, next, growth - (Sum(next) - Sum(sizes)))
  }

  // Making room and then adding the rest is adding all of it.
  lemma AfterRoom(cut: Cutting, sizes: seq<nat>, growth: nat)
    requires 0 < growth
    ensures var next := RoomFor(cut, sizes, growth);
            Sum(sizes) < Sum(next) <= Sum(sizes) + growth &&
            SizesAfter(cut, sizes, growth) == SizesAfter(cut, next, growth - (Sum(next) - Sum(sizes)))
  {
    hide RoomFor;
  }

  // ---- which size is preferred ----

  // New chunks are to have size f, however much is left to write.
  ghost predicate Prefers(cut: Cutting, f: nat) {
    forall remaining: nat :: PreferredSize(cut, remaining) == f
  }

  lemma FixedPreferred(cut: Cutting, f: nat)
    requires cut.fixedSize == Some(f) && 0 < f
    ensures Prefers(cut, f)
  {
  }

  // Without a fixed size, the largest base chunk before the last one decides.
  lemma LargestPreferred(cut: Cutting, i: nat)
    requires cut.fixedSize == None || cut.fixedSize == Some(0)
    requires i < |cut.baseSizes| - 1 && 0 < cut.baseSizes[i]
    requires forall j :: 0 <= j < |cut.baseSizes| - 1 ==> cut.baseSizes[j] <= cut.baseSizes[i]
    ensures Prefers(cut, cut.baseSizes[i])
  {
    var front := cut.baseSizes[..|cut.baseSizes| - 1];
    assert front[i] == cut.baseSizes[i];
    assert MaxOf(front) in front;
  }

  // If the chunks before it are all empty, the last one does.
  lemma LastPreferred(cut: Cutting, f: nat)
    requires cut.fixedSize == None || cut.fixedSize == Some(0)
    requires 0 < f && cut.baseSizes != [] && cut.baseSizes[|cut.baseSizes| - 1] == f
    requires forall j :: 0 <= j < |cut.baseSizes| - 1 ==> cut.baseSizes[j] == 0
    ensures Prefers(cut, f)
  {
    var front := cut.baseSizes[..|cut.baseSizes| - 1];
    assert MaxOf(front) == 0 || MaxOf(front) in front;
  }

  // With nothing to go by, one write adds one chunk; with the flag set and something there, see FillsLast.
  lemma WholePiece(cut: Cutting, sizes: seq<nat>, growth: nat)
    requires cut.fixedSize == None || cut.fixedSize == Some(0)
    requires forall j :: 0 <= j < |cut.baseSizes| ==> cut.baseSizes[j] == 0
    requires 0 < growth && (!cut.mergeLast || sizes == [])
    ensures SizesAfter(cut, sizes, growth) == sizes + [growth]
  {
    if cut.baseSizes != [] {
      var front := cut.baseSizes[..|cut.baseSizes| - 1];
      assert MaxOf(front) == 0 || MaxOf(front) in front;
    }
    SumPush(sizes, growth);
  }

  // ---- pieces of one size ----

  // Pieces of size f, the last one perhaps shorter, none empty.
  ghost predicate EvenlyCut(sizes: seq<nat>, f: nat) {
    forall i :: 0 <= i < |sizes| ==> 0 < sizes[i] <= f && (i < |sizes| - 1 ==> sizes[i] == f)
  }

  // The new sizes are the old ones followed by even pieces of so many bytes.
  ghost predicate AddedEvenly(sizes: seq<nat>, r: seq<nat>, growth: nat, f: nat) {
    |sizes| <= |r| && r[..|sizes|] == sizes && EvenlyCut(r[|sizes|..], f) && Sum(r[|sizes|..]) == growth
  }

  // Whether the last chunk takes no more.
  predicate LastStays(cut: Cutting, sizes: seq<nat>, f: nat) {
    !cut.mergeLast || sizes == [] || f <= sizes[|sizes| - 1]
  }

  lemma NoGrowth(cut: Cutting, sizes: seq<nat>, f: nat)
    ensures SizesAfter(cut, sizes, 0) == sizes && AddedEvenly(sizes, sizes, 0, f)
  {
    assert sizes[..|sizes|] == sizes && sizes[|sizes|..] == [];
  }

  lemma AddedPiece(sizes: seq<nat>, piece: nat, f: nat)
    requires 0 < piece <= f
    ensures AddedEvenly(sizes, sizes + [piece], piece, f)
  {
    hide Sum;
    var r := sizes + [piece];
    assert r[..|sizes|] == sizes;
    assert r[|sizes|..] == [piece];
    SumOne(piece);
  }

  lemma SumOne(x: nat)
    ensures Sum([x]) == x
  {
    SumPush([], x);
    assert [] + [x] == [x];
  }

  // A step that adds one piece, and one that fills up the last chunk.
  lemma PieceStep(cut: Cutting, sizes: seq<nat>, growth: nat, f: nat)
    requires Prefers(cut, f) && LastStays(cut, sizes, f) && 0 < growth
    ensures var piece := Min(growth, f);
            0 < piece <= f && piece == (if growth <= f then growth else f) &&
            SizesAfter(cut, sizes, growth) == SizesAfter(cut, sizes + [piece], growth - piece) &&
            LastStays(cut, sizes + [f], f)
  {
    hide PreferredSize;
    var piece := Min(growth, f);
    assert PreferredSize(cut, growth) == f;
    assert RoomFor(cut, sizes, growth) == sizes + [piece];
    SumPush(sizes, piece);
  }

  lemma FillStep(cut: Cutting, sizes: seq<nat>, growth: nat, f: nat)
    requires Prefers(cut, f) && !LastStays(cut, sizes, f) && 0 < growth
    ensures var filled := Min(f - sizes[|sizes| - 1], growth);
            SizesAfter(cut, sizes, growth) == SizesAfter(cut, sizes[|sizes| - 1 := sizes[|sizes| - 1] + filled], growth - filled)
  {
    hide PreferredSize;
    var last := |sizes| - 1;
    var filled := Min(f - sizes[last], growth);
    assert PreferredSize(cut, growth) == f;
    assert RoomFor(cut, sizes, growth) == sizes[last := sizes[last] + filled];
    GrownSum(sizes, filled);
  }

  // Unless the last chunk is filled up first, an append leaves every chunk alone and adds even pieces.
  lemma {:induction false} AddsPieces(cut: Cutting, sizes: seq<nat>, growth: nat, f: nat)
    requires Prefers(cut, f) && LastStays(cut, sizes, f)
    ensures AddedEvenly(sizes, SizesAfter(cut, sizes, growth), growth, f)
    decreases growth
  {
    hide *;
    NoGrowth(cut, sizes, f);
    if 0 < growth {
      PieceStep(cut, sizes, growth, f);
      if growth <= f {
        NoGrowth(cut, sizes + [growth], f);
        AddedPiece(sizes, growth, f);
      } else {
        AddsPieces(cut, sizes + [f], growth - f, f);
        PieceFirst(sizes, SizesAfter(cut, sizes, growth), f, growth - f);
      }
    }
  }

  lemma PieceFirst(sizes: seq<nat>, r: seq<nat>, f: nat, growth: nat)
    requires AddedEvenly(sizes + [f], r, growth, f) && 0 < f
    ensures AddedEvenly(sizes, r, growth + f, f)
  {
    hide Sum;
    var n := |sizes|;
    var rest, more := r[n..], r[n + 1..];
    assert r[..n] == r[..n + 1][..n] && r[n] == r[..n + 1][n];
    assert rest == [f] + more;
    SumAppend([f], more);
    SumOne(f);
    forall i | 0 <= i < |rest| ensures 0 < rest[i] <= f && (i < |rest| - 1 ==> rest[i] == f) {
      if i > 0 { assert rest[i] == more[i - 1]; }
    }
  }

  // With the flag set, a last chunk shorter than the preferred size is filled up to it first.
  lemma FillsLast(cut: Cutting, sizes: seq<nat>, growth: nat, f: nat)
    requires Prefers(cut, f) && !LastStays(cut, sizes, f)
    ensures var filled := Min(f - sizes[|sizes| - 1], growth);
            AddedEvenly(sizes[|sizes| - 1 := sizes[|sizes| - 1] + filled], SizesAfter(cut, sizes, growth), growth - filled, f)
  {
    hide AddedEvenly, Prefers;
    var last := |sizes| - 1;
    var filled := Min(f - sizes[last], growth);
    var next := sizes[last := sizes[last] + filled];
    if growth == 0 {
      assert next == sizes;
      NoGrowth(cut, sizes, f);
    } else {
      FillStep(cut, sizes, growth, f);
      if filled == growth {
        NoGrowth(cut, next, f);
      } else {
        hide SizesAfter;
        AddsPieces(cut, next, growth - filled, f);
      }
    }
  }

  lemma GrownSum(sizes: seq<nat>, grow: nat)
    requires sizes != []
    ensures Sum(sizes[|sizes| - 1 := sizes[|sizes| - 1] + grow]) == Sum(sizes) + grow
  {
    var last := |sizes| - 1;
    assert sizes[last := sizes[last] + grow][..last] == sizes[..last];
  }

  // So with the flag set a file of even pieces stays one.
  lemma EvenStays(cut: Cutting, sizes: seq<nat>, growth: nat, f: nat)
    requires Prefers(cut, f) && cut.mergeLast && EvenlyCut(sizes, f)
    ensures EvenlyCut(SizesAfter(cut, sizes, growth), f)
  {
    var r := SizesAfter(cut, sizes, growth);
    if LastStays(cut, sizes, f) {
      AddsPieces(cut, sizes, growth, f);
      EvenJoin(sizes, r, growth, f);
    } else {
      FillsLast(cut, sizes, growth, f);
      var last := |sizes| - 1;
      var filled := Min(f - sizes[last], growth);
      EvenJoin(sizes[last := sizes[last] + filled], r, growth - filled, f);
    }
  }

  lemma EvenJoin(sizes: seq<nat>, r: seq<nat>, growth: nat, f: nat)
    requires AddedEvenly(sizes, r, growth, f) && EvenlyCut(sizes, f)
    requires sizes == [] || sizes[|sizes| - 1] == f || growth == 0
    ensures EvenlyCut(r, f)
  {
    var n := |sizes|;
    forall i | 0 <= i < |r| ensures 0 < r[i] <= f && (i < |r| - 1 ==> r[i] == f) {
      if i < n {
        assert r[i] == sizes[i];
        if i == n - 1 && growth == 0 { NoPieces(r[n..], f); }
      } else {
        assert r[i] == r[n..][i - n];
      }
    }
  }

  lemma NoPieces(sizes: seq<nat>, f: nat)
    requires EvenlyCut(sizes, f) && Sum(sizes) == 0
    ensures sizes == []
  {
  }

  // Even pieces are the layout of a fixed size: what a fixed size and the total give back.
  lemma {:induction false} EvenIsFixed(sizes: seq<nat>, f: nat)
    requires EvenlyCut(sizes, f) && sizes != []
    ensures Sum(sizes) == (|sizes| - 1) * f + sizes[|sizes| - 1]
    ensures FixedSizes(|sizes|, Sum(sizes), f) == Ok(sizes)
  {
    var n := |sizes|;
    var last, front := sizes[n - 1], sizes[..n - 1];
    AllEqualSum(front, f);
    assert FixedLayout(n, Sum(sizes), f) == sizes;
  }

  // So a list of even pieces with the right total is sized by nothing but the fixed size.
  lemma EvenListIsFound(chunks: map<ChunkId, seq<byte>>, list: ChunkList, f: nat)
    requires EvenlyCut(Sizes(Contents(list.body)), f) && list.totalSize == |ListBytes(list.body)|
    ensures ResolvedSizes(chunks, list, false, Some(f), None) == Some(Sizes(Contents(list.body)))
  {
    hide FixedSizes, EvenlyCut, Sum;
    FlattenLength(Contents(list.body));
    var sizes := Sizes(Contents(list.body));
    if sizes != [] { EvenIsFixed(sizes, f); }
  }

  lemma {:induction false} AllEqualSum(sizes: seq<nat>, f: nat)
    requires forall i :: 0 <= i < |sizes| ==> sizes[i] == f
    ensures Sum(sizes) == |sizes| * f
  {
    if sizes != [] {
      var n := |sizes| - 1;
      AllEqualSum(sizes[..n], f);
      assert |sizes| * f == n * f + f;
    }
  }
}
