// The LRU map read as a list: the cached paths, least recently stored or refreshed first.
module CacheRecency {
  import opened FsTypes
  import opened SortedKeys
  import opened CacheState

  type Lru = map<nat, Path>

  ghost function Order(lru: Lru): seq<Path>
    decreases |lru|
  {
    if lru == map[] then []
    else
      var oldest := MinOf(lru.Keys);
      DroppedSize(lru, oldest);
      [lru[oldest]] + Order(lru - {oldest})
  }

  ghost function Kept(lru: Lru, keep: Path -> bool): Lru {
    map e | e in lru && keep(lru[e]) :: lru[e]
  }

  ghost function Filter(paths: seq<Path>, keep: Path -> bool): seq<Path> {
    if paths == [] then []
    else (if keep(paths[0]) then [paths[0]] else []) + Filter(paths[1..], keep)
  }

  lemma OldestIs(lru: Lru, e: nat)
    requires e in lru && forall k :: k in lru ==> e <= k
    ensures MinOf(lru.Keys) == e
  {
  }

  // A new largest id goes to the end.
  lemma {:induction false} OrderPush(lru: Lru, e: nat, path: Path)
    requires forall k :: k in lru ==> k < e
    ensures Order(lru[e := path]) == Order(lru) + [path]
    decreases |lru|
  {
    var more := lru[e := path];
    if lru == map[] {
      OldestIs(more, e);
      assert more - {e} == map[];
      assert Order(map[]) == [];
    } else {
      var oldest := MinOf(lru.Keys);
      OldestIs(more, oldest);
      assert more - {oldest} == (lru - {oldest})[e := path];
      DroppedSize(lru, oldest);
      OrderPush(lru - {oldest}, e, path);
    }
  }

  // Dropping entries by path drops them from the list.
  lemma {:induction false} OrderKept(lru: Lru, keep: Path -> bool)
    ensures Order(Kept(lru, keep)) == Filter(Order(lru), keep)
    decreases |lru|
  {
    var kept := Kept(lru, keep);
    if lru == map[] {
      assert kept == map[];
    } else {
      var oldest := MinOf(lru.Keys);
      var rest := lru - {oldest};
      DroppedSize(lru, oldest);
      OrderKept(rest, keep);
      assert Order(lru)[1..] == Order(rest);
      if keep(lru[oldest]) {
        assert oldest in kept;
        OldestIs(kept, oldest);
        assert kept - {oldest} == Kept(rest, keep);
      } else {
        assert kept == Kept(rest, keep);
      }
    }
  }

  // Eviction takes the least recently stored or refreshed entry.
  lemma EvictedOrder(c: CState, c2: CState, oldest: nat)
    requires Evicted(c, c2, oldest)
    ensures Order(c.lru) == [c.lru[oldest]] + Order(c2.lru)
  {
    hide Removed;
    OldestIs(c.lru, oldest);
  }

  // A refreshed entry becomes the most recent one.
  lemma RefreshedOrder(c: CState, c2: CState, path: Path)
    requires Paired(c) && Refreshed(c, c2, path)
    ensures Order(c2.lru) == Filter(Order(c.lru), p => p != path) + [path]
  {
    var e := c.nodes[path].entryId.value;
    assert c.lru - {e} == Kept(c.lru, p => p != path);
    OrderKept(c.lru, p => p != path);
    OrderPush(c.lru - {e}, c.next, path);
  }

  lemma StoredLru(c: CState, c2: CState, path: Path, value: CacheValue, ids: seq<InodeId>)
    requires Stored(c, c2, path, value, ids)
    ensures c2.lru == Unshadowed(c.lru, path)[c.next := path]
  {
    hide PutEdges, Unshadowed;
  }

  // A stored entry becomes the most recent one and replaces every entry at a prefix of its path.
  lemma StoredOrder(c: CState, c2: CState, path: Path, value: CacheValue, ids: seq<InodeId>)
    requires Paired(c) && Stored(c, c2, path, value, ids)
    ensures Order(c2.lru) == Filter(Order(c.lru), p => !(p <= path)) + [path]
  {
    StoredLru(c, c2, path, value, ids);
    hide Stored;
    assert Unshadowed(c.lru, path) == Kept(c.lru, p => !(p <= path));
    assert forall e :: e in Unshadowed(c.lru, path) ==> e < c.next;
    hide Paired, Unshadowed, Kept;
    OrderKept(c.lru, p => !(p <= path));
    OrderPush(Unshadowed(c.lru, path), c.next, path);
  }

  lemma InvalidatedLru(c: CState, c2: CState, prefix: Path)
    requires prefix != [] && prefix[..|prefix| - 1] in c.nodes && Invalidated(c, c2, prefix)
    ensures c2.lru == Kept(c.lru, p => !(prefix <= p))
  {
    hide Best;
  }

  // An invalidation drops the subtree and leaves the order of the others.
  lemma InvalidatedOrder(c: CState, c2: CState, prefix: Path)
    requires Trie(c.nodes) && Paired(c) && Invalidated(c, c2, prefix)
    ensures Order(c2.lru) == Filter(Order(c.lru), p => !(prefix <= p))
  {
    OrderKept(c.lru, p => !(prefix <= p));
    hide Order, Filter, Best;
    if prefix == [] {
      assert Kept(c.lru, p => !(prefix <= p)) == map[];
    } else if prefix[..|prefix| - 1] in c.nodes {
      InvalidatedLru(c, c2, prefix);
    } else {
      hide Invalidated;
      NothingBelow(c, prefix);
    }
  }

  // If the parent of a prefix is not in the trie, no entry is below the prefix.
  lemma NothingBelow(c: CState, prefix: Path)
    requires Trie(c.nodes) && Paired(c) && prefix != [] && prefix[..|prefix| - 1] !in c.nodes
    ensures Kept(c.lru, p => !(prefix <= p)) == c.lru
  {
    forall e | e in c.lru ensures !(prefix <= c.lru[e]) {
      hide Trie;
      if prefix <= c.lru[e] { PrefixInTrie(c.nodes, c.lru[e], prefix[..|prefix| - 1]); }
    }
    hide Trie, Paired;
  }
}
