// The path-resolution cache: a trie with summaries, an LRU map and an edge index, updated in place.
module PathCache {
  import opened Bytes
  import opened FsTypes
  import opened SortedKeys
  import opened CacheState
  import opened CacheRecency
  import opened CacheCoherence

  // usize::saturating_sub(1)
  function SaturatingDec(n: nat): nat { if n == 0 then 0 else n - 1 }

  // A path that has no entry yet needs room when the cache is full.
  ghost predicate NeedsRoom(c: CState, path: Path, maxEntries: nat) {
    (path !in c.nodes || c.nodes[path].value.None?) && c.count >= maxEntries && c.lru != map[]
  }

  // Room is made by evicting the oldest entry.
  ghost predicate MadeRoom(c: CState, mid: CState, path: Path, maxEntries: nat) {
    if NeedsRoom(c, path, maxEntries) then Evicted(c, mid, MinOf(c.lru.Keys)) else mid == c
  }

  // Making room drops an index row that a deeper entry still needs.
  ghost predicate RoomOrphans(c: CState, path: Path, maxEntries: nat) {
    NeedsRoom(c, path, maxEntries) && !SafeToEvict(c.nodes, c.lru[MinOf(c.lru.Keys)])
  }

  // The entry of path is in place, the edges and the summaries are still to be done.
  ghost predicate Entered(c: CState, c2: CState, path: Path, value: CacheValue) {
    (forall p :: p in c2.nodes <==> p in c.nodes || p <= path) &&
    (forall p :: p in c2.nodes && !(p <= path) ==> c2.nodes[p] == c.nodes[p]) &&
    (forall p :: p in c2.nodes && Strictly(p, path) ==> c2.nodes[p].value == None && c2.nodes[p].entryId == None) &&
    (forall p :: p in c2.nodes && p <= path ==>
      c2.nodes[p].deepest == if p in c.nodes then c.nodes[p].deepest else None) &&
    c2.nodes[path].value == Some(value) && c2.nodes[path].entryId == Some(c.next) &&
    c2.lru == Unshadowed(c.lru, path)[c.next := path] && c2.next == c.next + 1 && c2.count == |c2.lru| &&
    c2.edges == c.edges
  }

  // Nodes on path have new summaries; nothing else about the nodes is new.
  ghost predicate OnlySummaries(nodes: Nodes, nodes2: Nodes, path: Path) {
    nodes2.Keys == nodes.Keys &&
    forall p :: p in nodes ==>
      if p <= path then nodes2[p].value == nodes[p].value && nodes2[p].entryId == nodes[p].entryId
      else nodes2[p] == nodes[p]
  }

  // A node stays best while it and its children do.
  lemma BestKept(nodes: Nodes, nodes2: Nodes, p: Path)
    requires p in nodes && nodes2.Keys == nodes.Keys && nodes2[p] == nodes[p] && Best(nodes, p)
    requires forall q :: q in nodes && ChildOf(q, p) ==> nodes2[q] == nodes[q]
    ensures Best(nodes2, p)
  {
  }

  // Summaries on path are recomputed down to depth k.
  ghost predicate UpTo(nodes: Nodes, nodes2: Nodes, path: Path, k: nat) {
    OnlySummaries(nodes, nodes2, path) &&
    forall p :: p in nodes2 && p <= path && k <= |p| ==> Best(nodes2, p)
  }

  lemma UpStart(nodes: Nodes, path: Path)
    ensures UpTo(nodes, nodes, path, |path| + 1)
  {
  }

  lemma UpPrefix(nodes: Nodes, nodes2: Nodes, path: Path, k: nat)
    requires Trie(nodes) && path in nodes && k <= |path| && UpTo(nodes, nodes2, path, k + 1)
    ensures path[..k] in nodes2
  {
    InTrie(nodes, path, k);
  }

  lemma UpStep(nodes: Nodes, before: Nodes, after: Nodes, path: Path, k: nat)
    requires k <= |path| && UpTo(nodes, before, path, k + 1) && path[..k] in before && path[..k] in after
    requires after == before[path[..k] := before[path[..k]].(deepest := after[path[..k]].deepest)]
    requires Best(after, path[..k])
    ensures UpTo(nodes, after, path, k)
  {
    hide Best;
    forall p | p in after && p <= path && k <= |p| ensures Best(after, p) {
      if |p| == k {
        assert p == path[..k];
      } else {
        BestKept(before, after, p);
      }
    }
  }

  lemma UpEnd(nodes: Nodes, nodes2: Nodes, path: Path)
    requires UpTo(nodes, nodes2, path, 0)
    ensures OnlySummaries(nodes, nodes2, path)
    ensures forall p :: p in nodes2 && p <= path ==> Best(nodes2, p)
  {
    hide Best;
  }

  // What eviction needs to know of the entry it picks.
  lemma OldestEntry(c: CState)
    requires WellFormed(c) && c.lru != map[]
    ensures c.lru[MinOf(c.lru.Keys)] in c.nodes && Trie(c.nodes) && c.count == |c.lru|
    ensures |c.lru - {MinOf(c.lru.Keys)}| == c.count - 1
  {
    DroppedSize(c.lru, MinOf(c.lru.Keys));
  }

  lemma RemovedBySummaries(nodes: Nodes, cut: Nodes, nodes2: Nodes, path: Path)
    requires path in nodes && cut == nodes[path := nodes[path].(value := None, entryId := None)]
    requires OnlySummaries(cut, nodes2, path) && forall p :: p in nodes2 && p <= path ==> Best(nodes2, p)
    ensures Removed(nodes, nodes2, path)
  {
    hide Best;
  }

  lemma Bookkeeping(c: CState)
    requires WellFormed(c)
    ensures Trie(c.nodes) && Paired(c) && c.count == |c.lru| && [] in c.nodes
  {
    hide Paired;
  }

  // ---- the steps of entering a path ----

  function Cleared(n: Node): Node { n.(value := None, entryId := None) }

  // p is one of the first k nodes on the way to path.
  ghost predicate Above(p: Path, path: Path, k: nat) {
    p <= path && |p| < k
  }

  lemma AboveNext(p: Path, path: Path, k: nat)
    requires k < |path|
    ensures Above(p, path, k + 1) <==> Above(p, path, k) || p == path[..k]
  {
  }

  ghost predicate ClearedNodes(nodes: Nodes, nodes2: Nodes, path: Path, k: nat) {
    nodes2.Keys == nodes.Keys &&
    forall p :: p in nodes ==> nodes2[p] == if Above(p, path, k) then Cleared(nodes[p]) else nodes[p]
  }

  ghost predicate ClearedLru(lru: Lru, lru2: Lru, path: Path, k: nat) {
    (forall e :: e in lru2 <==> e in lru && !Above(lru[e], path, k)) && forall e :: e in lru2 ==> lru2[e] == lru[e]
  }

  // The entries of the first k nodes on the way to path are dropped.
  ghost predicate ClearedTo(c: CState, m: CState, path: Path, k: nat) {
    ClearedNodes(c.nodes, m.nodes, path, k) && ClearedLru(c.lru, m.lru, path, k) &&
    m.count == |m.lru| && m.edges == c.edges && m.next == c.next
  }

  ghost predicate ClearedNode(m: CState, m2: CState, p: Path) {
    p in m.nodes && m2.nodes == m.nodes[p := Cleared(m.nodes[p])] && m2.edges == m.edges && m2.next == m.next &&
    m2.lru == Without(m.lru, m.nodes[p].entryId) &&
    m2.count == if m.nodes[p].entryId.Some? then SaturatingDec(m.count) else m.count
  }

  function Without(lru: Lru, e: Option<nat>): Lru {
    if e.Some? then lru - {e.value} else lru
  }

  lemma ClearStart(c: CState, path: Path)
    requires c.count == |c.lru|
    ensures ClearedTo(c, c, path, 0)
  {
  }

  lemma ClearStep(c: CState, m: CState, m2: CState, path: Path, k: nat)
    requires Paired(c) && ClearedTo(c, m, path, k) && k < |path| && ClearedNode(m, m2, path[..k])
    ensures ClearedTo(c, m2, path, k + 1)
  {
    TargetInLru(c, m, path[..k], path, k);
    if m.nodes[path[..k]].entryId.Some? { DroppedSize(m.lru, m.nodes[path[..k]].entryId.value); }
    ClearStepLru(c, m.lru, path, k);
    hide Paired, ClearedLru, Above;
    ClearStepNodes(c.nodes, m.nodes, path, k);
  }

  // The entry of a node that is not cleared yet is still in the LRU map.
  lemma TargetInLru(c: CState, m: CState, p: Path, path: Path, k: nat)
    requires Paired(c) && ClearedTo(c, m, path, k) && p in m.nodes && !Above(p, path, k)
    ensures m.nodes[p] == c.nodes[p] && (m.nodes[p].entryId.Some? ==> m.nodes[p].entryId.value in m.lru)
  {
  }

  lemma ClearStepNodes(nodes: Nodes, m: Nodes, path: Path, k: nat)
    requires ClearedNodes(nodes, m, path, k) && k < |path| && path[..k] in m
    ensures ClearedNodes(nodes, m[path[..k] := Cleared(m[path[..k]])], path, k + 1)
  {
    forall p | p in nodes ensures Above(p, path, k + 1) <==> Above(p, path, k) || p == path[..k] {
      AboveNext(p, path, k);
    }
    hide Above;
  }

  lemma ClearStepLru(c: CState, lru: Lru, path: Path, k: nat)
    requires Paired(c) && ClearedLru(c.lru, lru, path, k) && k < |path| && path[..k] in c.nodes
    ensures ClearedLru(c.lru, Without(lru, c.nodes[path[..k]].entryId), path, k + 1)
  {
    var target := path[..k];
    forall e | e in c.lru
      ensures Above(c.lru[e], path, k + 1) <==> Above(c.lru[e], path, k) || c.nodes[target].entryId == Some(e)
    {
      AboveNext(c.lru[e], path, k);
    }
    hide Above, Paired;
  }

  // The walk stops at the end of the path, or where the trie stops.
  lemma ClearEnd(c: CState, m: CState, path: Path, k: nat)
    requires Trie(c.nodes) && Paired(c) && ClearedTo(c, m, path, k) && k <= |path|
    requires k == |path| || path[..k] !in c.nodes
    ensures ClearedTo(c, m, path, |path|)
  {
    if k < |path| {
      forall p | p in c.nodes ensures Above(p, path, |path|) <==> Above(p, path, k) {
        NoneDeeper(c.nodes, path, k, p);
      }
      assert forall e :: e in c.lru ==> c.lru[e] in c.nodes;
      hide Trie, Paired, Above, ClearedNodes, ClearedLru;
      SameCleared(c, m, path, k);
    }
  }

  lemma SameCleared(c: CState, m: CState, path: Path, k: nat)
    requires ClearedNodes(c.nodes, m.nodes, path, k) && ClearedLru(c.lru, m.lru, path, k) && k <= |path|
    requires forall p :: p in c.nodes ==> (Above(p, path, |path|) <==> Above(p, path, k))
    requires forall e :: e in c.lru ==> c.lru[e] in c.nodes
    ensures ClearedNodes(c.nodes, m.nodes, path, |path|) && ClearedLru(c.lru, m.lru, path, |path|)
  {
    hide Above;
  }

  lemma NoneDeeper(nodes: Nodes, path: Path, k: nat, p: Path)
    requires Trie(nodes) && k < |path| && path[..k] !in nodes && p in nodes
    ensures Above(p, path, |path|) <==> Above(p, path, k)
  {
    if k <= |p| {
      PrefixTake(p, path, k);
      InTrie(nodes, p, k);
    }
  }

  lemma PrefixTake(p: Path, path: Path, k: nat)
    requires k <= |p| && k <= |path|
    ensures p <= path ==> p[..k] == path[..k]
  {
  }

  // The prefixes of path up to length k exist.
  ghost predicate GrownTo(nodes: Nodes, nodes2: Nodes, path: Path, k: nat) {
    (forall p :: p in nodes2 <==> p in nodes || (p <= path && |p| <= k)) &&
    (forall p :: p in nodes2 ==> nodes2[p] == if p in nodes then nodes[p] else EmptyNode)
  }

  lemma GrowStep(nodes: Nodes, m: Nodes, m2: Nodes, path: Path, k: nat)
    requires GrownTo(nodes, m, path, k) && k < |path|
    requires m2 == if path[..k + 1] in m then m else m[path[..k + 1] := EmptyNode]
    ensures GrownTo(nodes, m2, path, k + 1)
  {
    assert forall p :: p <= path && |p| == k + 1 ==> p == path[..k + 1];
  }

  lemma ClearedKeys(c: CState, m: CState, path: Path, k: nat)
    requires ClearedTo(c, m, path, k)
    ensures m.nodes.Keys == c.nodes.Keys && m.count == |m.lru| && m.edges == c.edges && m.next == c.next
  {
  }

  // The old entry of the target, if any, is still in the LRU map after the shallow ones are cleared.
  lemma TargetEntry(c: CState, m: CState, grown: Nodes, path: Path)
    requires Paired(c) && ClearedTo(c, m, path, |path|) && GrownTo(m.nodes, grown, path, |path|) && path in grown
    ensures grown[path].entryId.Some? ==> grown[path].entryId.value in m.lru
  {
    if path in c.nodes { TargetInLru(c, m, path, path, |path|); }
  }

  // Clearing, growing, dropping the target's old entry and adding the new one enters a path.
  lemma EnterParts(c: CState, m: CState, grown: Nodes, rest: Lru, c2: CState, path: Path, value: CacheValue)
    requires Paired(c) && ClearedTo(c, m, path, |path|) && GrownTo(m.nodes, grown, path, |path|) && path in grown
    requires rest == Without(m.lru, grown[path].entryId)
    requires c2.nodes == grown[path := grown[path].(value := Some(value), entryId := Some(c.next))]
    requires c2.lru == rest[c.next := path] && c2.next == c.next + 1 && c2.count == |rest| + 1 && c2.edges == c.edges
    ensures Entered(c, c2, path, value)
  {
    EnterLru(c, m, grown, path);
    EnterNodes(c, m, grown, c2, path, value);
    hide GrownTo, ClearedNodes, ClearedLru, Without;
    NextIsNew(c, path);
    hide Paired, ClearedTo, Unshadowed;
    AddedSize(rest, c.next, path);
  }

  lemma NextIsNew(c: CState, path: Path)
    requires Paired(c)
    ensures c.next !in Unshadowed(c.lru, path)
  {
  }

  lemma EnterLru(c: CState, m: CState, grown: Nodes, path: Path)
    requires Paired(c) && ClearedTo(c, m, path, |path|) && GrownTo(m.nodes, grown, path, |path|) && path in grown
    ensures Without(m.lru, grown[path].entryId) == Unshadowed(c.lru, path)
  {
    assert grown[path].entryId == if path in c.nodes then c.nodes[path].entryId else None;
    hide ClearedNodes, GrownTo;
    forall e | e in c.lru
      ensures c.lru[e] <= path <==> Above(c.lru[e], path, |path|) || grown[path].entryId == Some(e)
    {
      assert c.lru[e] <= path && !Above(c.lru[e], path, |path|) <==> c.lru[e] == path;
    }
    hide Paired, Above;
  }

  lemma EnterNodes(c: CState, m: CState, grown: Nodes, c2: CState, path: Path, value: CacheValue)
    requires ClearedNodes(c.nodes, m.nodes, path, |path|) && GrownTo(m.nodes, grown, path, |path|) && path in grown
    requires c2.nodes == grown[path := grown[path].(value := Some(value), entryId := Some(c.next))]
    ensures forall p :: p in c2.nodes <==> p in c.nodes || p <= path
    ensures forall p :: p in c2.nodes && !(p <= path) ==> c2.nodes[p] == c.nodes[p]
    ensures forall p :: p in c2.nodes && Strictly(p, path) ==> c2.nodes[p].value == None && c2.nodes[p].entryId == None
    ensures forall p :: p in c2.nodes && p <= path ==>
      c2.nodes[p].deepest == if p in c.nodes then c.nodes[p].deepest else None
  {
    assert forall p :: Strictly(p, path) <==> Above(p, path, |path|);
  }

  // ---- the steps after entering a path ----

  // Summaries on path, from depth k down, are at least as long as ids.
  ghost predicate Raised(nodes: Nodes, nodes2: Nodes, path: Path, ids: seq<InodeId>, k: nat) {
    nodes2.Keys == nodes.Keys &&
    forall p :: p in nodes ==>
      nodes2[p] == if p <= path && k <= |p| then nodes[p].(deepest := Longer(nodes[p].deepest, ids)) else nodes[p]
  }

  lemma RaiseStep(nodes: Nodes, m: Nodes, path: Path, ids: seq<InodeId>, k: nat)
    requires Raised(nodes, m, path, ids, k + 1) && k <= |path| && path[..k] in m
    ensures Raised(nodes, m[path[..k] := m[path[..k]].(deepest := Longer(m[path[..k]].deepest, ids))], path, ids, k)
  {
    assert forall p :: p <= path && |p| == k ==> p == path[..k];
  }

  lemma IdsParts(c: CState, m: CState, c2: CState, path: Path, ids: seq<InodeId>)
    requires |ids| == |path| + 1 && Entered(c, m, path, InodeIds(ids)) && path in m.nodes
    requires Raised(m.nodes[path := m.nodes[path].(deepest := Some(ids))], c2.nodes, path, ids, 0)
    requires c2 == m.(nodes := c2.nodes, edges := PutEdges(m.edges, path, ids, |path|))
    ensures StoredIds(c, c2, path, ids)
  {
    hide PutEdges, Unshadowed;
    var start := m.nodes[path := m.nodes[path].(deepest := Some(ids))];
    RaisedNodes(start, c2.nodes, path, ids);
    hide Raised, Longer;
    RaisedStored(c, m, c2, path, ids);
  }

  lemma RaisedNodes(nodes: Nodes, nodes2: Nodes, path: Path, ids: seq<InodeId>)
    requires path in nodes && nodes[path].deepest == Some(ids) && Raised(nodes, nodes2, path, ids, 0)
    ensures nodes2.Keys == nodes.Keys && nodes2[path].deepest == Some(ids)
    ensures forall p :: p in nodes && p <= path ==> nodes2[p].deepest == Longer(nodes[p].deepest, ids)
    ensures forall p :: p in nodes ==> nodes2[p].value == nodes[p].value && nodes2[p].entryId == nodes[p].entryId
    ensures forall p :: p in nodes && !(p <= path) ==> nodes2[p] == nodes[p]
  {
  }

  lemma RaisedStored(c: CState, m: CState, c2: CState, path: Path, ids: seq<InodeId>)
    requires |ids| == |path| + 1 && Entered(c, m, path, InodeIds(ids)) && path in m.nodes
    requires c2 == m.(nodes := c2.nodes, edges := PutEdges(m.edges, path, ids, |path|)) && c2.nodes.Keys == m.nodes.Keys
    requires forall p :: p in m.nodes ==> c2.nodes[p].value == m.nodes[p].value && c2.nodes[p].entryId == m.nodes[p].entryId
    requires forall p :: p in m.nodes && !(p <= path) ==> c2.nodes[p] == m.nodes[p]
    ensures Stored(c, c2, path, InodeIds(ids), ids)
  {
    hide PutEdges, Unshadowed;
  }

  lemma TerminalParts(c: CState, m: CState, c2: CState, path: Path, parents: seq<InodeId>, t: Terminal)
    requires |parents| == |path| && Entered(c, m, path, TerminalValue(t)) && path in m.nodes
    requires OnlySummaries(m.nodes, c2.nodes, path) && forall p :: p in c2.nodes && p <= path ==> Best(c2.nodes, p)
    requires c2 == m.(nodes := c2.nodes, edges := PutEdges(m.edges, path, parents, |path|))
    ensures StoredTerminal(c, c2, path, parents, t)
  {
    hide PutEdges, Unshadowed, Best;
  }

  lemma EnteredNodes(c: CState, m: CState, path: Path, value: CacheValue)
    requires Entered(c, m, path, value)
    ensures path in m.nodes && forall k :: 0 <= k <= |path| ==> path[..k] in m.nodes
  {
    hide PutEdges, Unshadowed;
  }

  lemma EnteredTrie(c: CState, m: CState, path: Path, value: CacheValue)
    requires Trie(c.nodes) && Entered(c, m, path, value)
    ensures Trie(m.nodes)
  {
    forall p | p in m.nodes && p != [] ensures p[..|p| - 1] in m.nodes {
      if p <= path { assert p[..|p| - 1] <= path; }
    }
  }

  // After room was made, one more entry fits.
  ghost predicate Fits(c: CState, path: Path, maxEntries: nat) {
    (path in c.nodes && c.nodes[path].value.Some?) || c.count < Max(1, maxEntries)
  }

  lemma StoredFits(c: CState, c2: CState, path: Path, value: CacheValue, ids: seq<InodeId>, maxEntries: nat)
    requires Paired(c) && c.count == |c.lru| && c.count <= Max(1, maxEntries) && Fits(c, path, maxEntries)
    requires Stored(c, c2, path, value, ids)
    ensures c2.count <= Max(1, maxEntries)
  {
    StoredCount(c, c2, path, value, ids);
    hide Stored, Paired;
  }

  lemma IdsFit(c: CState, c2: CState, path: Path, ids: seq<InodeId>, maxEntries: nat)
    requires Paired(c) && c.count == |c.lru| && c.count <= Max(1, maxEntries) && Fits(c, path, maxEntries)
    requires StoredIds(c, c2, path, ids)
    ensures c2.count <= Max(1, maxEntries)
  {
    hide Stored, Paired, Fits;
    StoredFits(c, c2, path, InodeIds(ids), ids, maxEntries);
  }

  lemma TerminalFits(c: CState, c2: CState, path: Path, parents: seq<InodeId>, t: Terminal, maxEntries: nat)
    requires Paired(c) && c.count == |c.lru| && c.count <= Max(1, maxEntries) && Fits(c, path, maxEntries)
    requires StoredTerminal(c, c2, path, parents, t)
    ensures c2.count <= Max(1, maxEntries)
  {
    hide Stored, Paired, Fits, Best;
    StoredFits(c, c2, path, TerminalValue(t), parents, maxEntries);
  }

  // ---- the steps of an invalidation ----

  // Of the subtree at prefix, only the nodes in left are still there.
  ghost predicate Cut(c: CState, m: CState, prefix: Path, left: set<Path>) {
    (forall p :: p in left ==> p in c.nodes && prefix <= p) &&
    CutNodes(c.nodes, m.nodes, prefix, left) && CutLru(c.lru, m.lru, prefix, left) && m.count == |m.lru| &&
    m.edges == c.edges && m.next == c.next
  }

  ghost predicate CutNodes(nodes: Nodes, nodes2: Nodes, prefix: Path, left: set<Path>) {
    (forall p :: p in nodes2 <==> p in nodes && (!(prefix <= p) || p in left)) &&
    forall p :: p in nodes2 ==> nodes2[p] == nodes[p]
  }

  ghost predicate CutLru(lru: Lru, lru2: Lru, prefix: Path, left: set<Path>) {
    (forall e :: e in lru2 <==> e in lru && (!(prefix <= lru[e]) || lru[e] in left)) &&
    forall e :: e in lru2 ==> lru2[e] == lru[e]
  }

  lemma CutStart(c: CState, prefix: Path, left: set<Path>)
    requires Paired(c) && c.count == |c.lru| && left == set p | p in c.nodes && prefix <= p
    ensures Cut(c, c, prefix, left)
  {
  }

  lemma CutEntry(c: CState, m: CState, prefix: Path, left: set<Path>, p: Path)
    requires Paired(c) && Cut(c, m, prefix, left) && p in left
    ensures p in m.nodes && m.nodes[p] == c.nodes[p]
    ensures m.nodes[p].entryId.Some? ==> m.nodes[p].entryId.value in m.lru
  {
  }

  lemma CutStep(c: CState, m: CState, m2: CState, prefix: Path, left: set<Path>, p: Path)
    requires Paired(c) && Cut(c, m, prefix, left) && p in left && p in m.nodes
    requires m2.nodes == m.nodes - {p} && m2.lru == Without(m.lru, m.nodes[p].entryId)
    requires m2.count == |m2.lru| && m2.edges == m.edges && m2.next == m.next
    ensures Cut(c, m2, prefix, left - {p})
  {
    CutEntry(c, m, prefix, left, p);
    CutStepLru(c, m.lru, prefix, left, p);
    hide Paired, CutLru;
    CutStepNodes(c.nodes, m.nodes, prefix, left, p);
    hide CutNodes;
  }

  lemma CutStepNodes(nodes: Nodes, m: Nodes, prefix: Path, left: set<Path>, p: Path)
    requires CutNodes(nodes, m, prefix, left) && p in left && prefix <= p
    ensures CutNodes(nodes, m - {p}, prefix, left - {p})
  {
  }

  lemma CutStepLru(c: CState, lru: Lru, prefix: Path, left: set<Path>, p: Path)
    requires Paired(c) && CutLru(c.lru, lru, prefix, left) && p in left && p in c.nodes && prefix <= p
    ensures CutLru(c.lru, Without(lru, c.nodes[p].entryId), prefix, left - {p})
  {
    assert forall e :: e in c.lru ==> (c.lru[e] == p <==> c.nodes[p].entryId == Some(e));
    hide Paired;
  }

  lemma CutTrie(c: CState, m: CState, prefix: Path)
    requires Trie(c.nodes) && Cut(c, m, prefix, {}) && prefix != [] && prefix[..|prefix| - 1] in c.nodes
    ensures Trie(m.nodes) && prefix[..|prefix| - 1] in m.nodes
  {
    hide CutLru;
    forall p | p in m.nodes && p != [] ensures p[..|p| - 1] in m.nodes {
      assert prefix <= p[..|p| - 1] ==> prefix <= p;
    }
  }

  lemma InvalidatedParts(c: CState, m: CState, c2: CState, prefix: Path)
    requires prefix != [] && prefix[..|prefix| - 1] in c.nodes && Cut(c, m, prefix, {})
    requires OnlySummaries(m.nodes, c2.nodes, prefix[..|prefix| - 1])
    requires forall p :: p in c2.nodes && p <= prefix[..|prefix| - 1] ==> Best(c2.nodes, p)
    requires c2 == m.(nodes := c2.nodes, edges := map k | k in m.edges && !(prefix <= m.edges[k]) :: m.edges[k])
    ensures Invalidated(c, c2, prefix)
  {
    hide Best;
    assert forall p :: Strictly(p, prefix) <==> p <= prefix[..|prefix| - 1];
    CutLruIs(c.lru, c2.lru, prefix);
    hide CutLru, Strictly;
  }

  lemma CutLruIs(lru: Lru, lru2: Lru, prefix: Path)
    requires CutLru(lru, lru2, prefix, {})
    ensures lru2 == map e | e in lru && !(prefix <= lru[e]) :: lru[e]
  {
  }

  // ---- lookups ----

  // The vector a node answers for its own path, if the one it has is long enough.
  function IdsFor(nodes: Nodes, path: Path): (ids: Option<seq<InodeId>>)
    ensures ids.Some? ==> |ids.value| == |path| + 1
  {
    if path in nodes && IdsAt(nodes, path).Some? && |IdsAt(nodes, path).value| >= |path| + 1
    then Some(IdsAt(nodes, path).value[..|path| + 1])
    else None
  }

  // What was stored is found: every prefix of the path is answered, and the path itself by the ids stored.
  lemma StoredIsFound(c: CState, c2: CState, path: Path, ids: seq<InodeId>)
    requires WellFormed(c2) && StoredIds(c, c2, path, ids)
    ensures IdsFor(c2.nodes, path) == Some(ids)
    ensures forall k :: 0 <= k <= |path| ==> IdsFor(c2.nodes, path[..k]).Some?
  {
    hide *;
    StoredHere(c, c2, path, ids);
    FoundHere(c2.nodes, path, ids);
    forall k | 0 <= k <= |path| ensures IdsFor(c2.nodes, path[..k]).Some? {
      PrefixesAnswered(c2, path, path[..k]);
      FoundAt(c2.nodes, path[..k]);
    }
  }

  lemma StoredHere(c: CState, c2: CState, path: Path, ids: seq<InodeId>)
    requires StoredIds(c, c2, path, ids)
    ensures path in c2.nodes && c2.nodes[path].Ids() == Some(ids) && |ids| == |path| + 1
  {
  }

  lemma FoundHere(nodes: Nodes, path: Path, ids: seq<InodeId>)
    requires path in nodes && nodes[path].Ids() == Some(ids) && |ids| == |path| + 1
    ensures IdsFor(nodes, path) == Some(ids)
  {
    assert ids[..|path| + 1] == ids;
  }

  lemma FoundAt(nodes: Nodes, path: Path)
    requires path in nodes && IdsAt(nodes, path).Some? && |IdsAt(nodes, path).value| >= |path| + 1
    ensures IdsFor(nodes, path).Some?
  {
  }

  predicate HasTerminal(nodes: Nodes, path: Path) {
    path in nodes && nodes[path].value.Some? && nodes[path].value.value.TerminalValue?
  }

  lemma TerminalStored(c: CState, c2: CState, path: Path, parents: seq<InodeId>, t: Terminal)
    requires StoredTerminal(c, c2, path, parents, t)
    ensures HasTerminal(c2.nodes, path) && c2.nodes[path].value == Some(TerminalValue(t))
  {
    hide Best;
  }

  lemma NoNodeBelow(nodes: Nodes, path: Path, k: nat)
    requires Trie(nodes) && k <= |path| && path[..k] !in nodes
    ensures forall j :: k <= j <= |path| ==> path[..j] !in nodes
  {
    forall j | k <= j <= |path| ensures path[..j] !in nodes {
      assert path[..j][..k] == path[..k];
      if path[..j] in nodes { InTrie(nodes, path[..j], k); }
    }
  }

  lemma NoTerminalBelow(nodes: Nodes, path: Path, k: nat)
    requires Trie(nodes) && k <= |path| && path[..k] !in nodes
    ensures forall j :: k <= j <= |path| ==> !HasTerminal(nodes, path[..j])
  {
    NoNodeBelow(nodes, path, k);
  }

  // ids answers a prefix of path no deeper than depth, and nothing answers a longer one.
  ghost predicate LongestIds(nodes: Nodes, path: Path, depth: nat, ids: Option<seq<InodeId>>)
    requires depth <= |path|
  {
    (ids.Some? ==> 0 < |ids.value| <= depth + 1 && IdsFor(nodes, path[..|ids.value| - 1]) == ids) &&
    forall k :: (if ids.Some? then |ids.value| else 0) <= k <= depth ==> IdsFor(nodes, path[..k]) == None
  }

  lemma LongestStart(nodes: Nodes, path: Path)
    ensures LongestIds(nodes, path, 0, IdsFor(nodes, []))
  {
    assert path[..0] == [];
    hide IdsFor;
  }

  lemma LongestStep(nodes: Nodes, path: Path, depth: nat, ids: Option<seq<InodeId>>)
    requires depth < |path| && LongestIds(nodes, path, depth, ids)
    ensures LongestIds(nodes, path, depth + 1,
                       if IdsFor(nodes, path[..depth + 1]).Some? then IdsFor(nodes, path[..depth + 1]) else ids)
  {
    hide IdsFor;
  }

  lemma LongestEnd(nodes: Nodes, path: Path, depth: nat, ids: Option<seq<InodeId>>)
    requires Trie(nodes) && depth <= |path| && LongestIds(nodes, path, depth, ids)
    requires depth < |path| ==> path[..depth + 1] !in nodes
    ensures LongestIds(nodes, path, |path|, ids)
  {
    if depth < |path| {
      NoNodeBelow(nodes, path, depth + 1);
      forall k | depth < k <= |path| ensures IdsFor(nodes, path[..k]) == None {
      }
    }
    hide IdsFor;
  }

  lemma RefreshedFits(c: CState, c2: CState, path: Path)
    requires Refreshed(c, c2, path)
    ensures c2.count == c.count
  {
  }

  class PathResolveCache {
    var nodes: Nodes
    var edgeIndex: map<Edge, Path>
    const maxEntries: nat
    var entryCount: nat
    var nextEntryId: nat
    var lruMap: map<nat, Path>
    // Whether an eviction ever dropped an index row that a deeper entry still needed.
    ghost var orphaned: bool

    ghost function S(): CState
      reads this
    {
      CState(nodes, edgeIndex, lruMap, entryCount, nextEntryId)
    }

    ghost predicate Valid()
      reads this
    {
      WellFormed(S()) && entryCount <= Max(1, maxEntries)
    }

    constructor (maxEntries: nat)
      ensures Valid() && S() == Empty(0) && this.maxEntries == maxEntries && !orphaned
    {
      nodes, edgeIndex, lruMap := map[[] := EmptyNode], map[], map[];
      this.maxEntries := maxEntries;
      entryCount, nextEntryId, orphaned := 0, 0, false;
      new;
      InitWellFormed(0);
    }

    // recompute_deepest_inode
    method RecomputeDeepest(p: Path)
      requires p in nodes
      modifies this`nodes
      ensures p in nodes && nodes == old(nodes)[p := old(nodes)[p].(deepest := nodes[p].deepest)]
      ensures Best(nodes, p)
    {
      var best := nodes[p].Ids();
      var children := set q | q in nodes && ChildOf(q, p);
      while children != {}
        invariant forall q :: q in children ==> q in nodes && ChildOf(q, p)
        invariant best.Some? ==> Candidate(nodes, p, best.value)
        invariant nodes[p].Ids().Some? ==> best.Some? && |nodes[p].Ids().value| <= |best.value|
        invariant forall q :: q in nodes && ChildOf(q, p) && q !in children && nodes[q].deepest.Some? ==>
          best.Some? && |nodes[q].deepest.value| <= |best.value|
        decreases |children|
      {
        var q :| q in children;
        var held := nodes[q].deepest;
        if held.Some? && (best.None? || |held.value| > |best.value|) {
          best := held;
        }
        children := children - {q};
      }
      ghost var before := nodes;
      nodes := nodes[p := nodes[p].(deepest := best)];
      assert best.Some? && before[p].Ids() != best ==>
        exists q :: q in before && ChildOf(q, p) && before[q].deepest == best && nodes[q] == before[q];
    }

    // Summaries are recomputed from path up to the root.
    method RecomputeUp(path: Path)
      requires Trie(nodes) && path in nodes
      modifies this`nodes
      ensures OnlySummaries(old(nodes), nodes, path)
      ensures forall p :: p in nodes && p <= path ==> Best(nodes, p)
    {
      hide *;
      UpStart(nodes, path);
      for k := |path| + 1 downto 0
        invariant UpTo(old(nodes), nodes, path, k)
      {
        UpPrefix(old(nodes), nodes, path, k);
        ghost var before := nodes;
        RecomputeDeepest(path[..k]);
        UpStep(old(nodes), before, nodes, path, k);
      }
      UpEnd(old(nodes), nodes, path);
    }

    // refresh_lru_for_path
    method RefreshLru(path: Path, oldEntryId: nat)
      requires WellFormed(S()) && path in nodes && nodes[path].entryId == Some(oldEntryId)
      modifies this`nodes, this`lruMap, this`nextEntryId
      ensures Refreshed(old(S()), S(), path) && WellFormed(S())
    {
      ghost var c := S();
      assert Paired(c);
      hide Trie, Sized, Summaries;
      if oldEntryId in lruMap {
        var newEntryId := nextEntryId;
        var entry := lruMap[oldEntryId];
        nextEntryId := nextEntryId + 1;
        lruMap := (lruMap - {oldEntryId})[newEntryId := entry];
        nodes := nodes[path := nodes[path].(entryId := Some(newEntryId))];
      }
      hide Paired;
      RefreshedWellFormed(c, S(), path);
    }

    method RemoveSingleEntry(path: Path)
      requires Trie(nodes) && path in nodes
      modifies this`nodes, this`edgeIndex
      ensures Removed(old(nodes), nodes, path)
      ensures edgeIndex == if path == [] then old(edgeIndex)
        else map k | k in old(edgeIndex) && old(edgeIndex)[k] != path :: old(edgeIndex)[k]
    {
      nodes := nodes[path := nodes[path].(value := None, entryId := None)];
      ghost var cut := nodes;
      if path != [] {
        edgeIndex := map k | k in edgeIndex && edgeIndex[k] != path :: edgeIndex[k];
      }
      RecomputeUp(path);
      hide Best;
      RemovedBySummaries(old(nodes), cut, nodes, path);
    }

    method EvictLru()
      requires WellFormed(S())
      modifies this
      ensures WellFormed(S())
      ensures old(lruMap) == map[] ==> S() == old(S()) && orphaned == old(orphaned)
      ensures old(lruMap) != map[] ==> Evicted(old(S()), S(), MinOf(old(lruMap).Keys))
      ensures old(lruMap) != map[] ==>
        orphaned == (old(orphaned) || !SafeToEvict(old(nodes), old(lruMap)[MinOf(old(lruMap).Keys)]))
    {
      hide WellFormed, Removed, Evicted, SafeToEvict, Trie;
      if lruMap == map[] { return; }
      ghost var c := S();
      OldestEntry(c);
      var oldestId := MinOf(lruMap.Keys);
      var path := lruMap[oldestId];
      orphaned := orphaned || !SafeToEvict(nodes, path);
      lruMap := lruMap - {oldestId};
      entryCount := SaturatingDec(entryCount);
      RemoveSingleEntry(path);
      EvictedParts(c, S(), oldestId, path);
      EvictedWellFormed(c, S(), oldestId);
    }

    // clear_shallow_values_on_path
    method ClearShallowValues(path: Path)
      requires WellFormed(S())
      modifies this`nodes, this`lruMap, this`entryCount
      ensures ClearedTo(old(S()), S(), path, |path|)
    {
      ghost var c := S();
      hide WellFormed, Trie, Paired, ClearedTo;
      Bookkeeping(c);
      ClearStart(c, path);
      var k := 0;
      while k < |path| && path[..k] in nodes
        invariant k <= |path| && ClearedTo(c, S(), path, k)
      {
        ghost var m := S();
        var entryId := nodes[path[..k]].entryId;
        if entryId.Some? {
          lruMap := lruMap - {entryId.value};
          entryCount := SaturatingDec(entryCount);
        }
        nodes := nodes[path[..k] := nodes[path[..k]].(value := None, entryId := None)];
        ClearStep(c, m, S(), path, k);
        k := k + 1;
      }
      ClearedKeys(c, S(), path, k);
      ClearEnd(c, S(), path, k);
    }

    // Creates the nodes on the way to path that do not exist yet.
    method GrowPath(path: Path)
      requires [] in nodes
      modifies this`nodes
      ensures path in nodes && GrownTo(old(nodes), nodes, path, |path|)
    {
      for k := 0 to |path|
        invariant GrownTo(old(nodes), nodes, path, k)
      {
        hide GrownTo;
        ghost var m := nodes;
        if path[..k + 1] !in nodes {
          nodes := nodes[path[..k + 1] := EmptyNode];
        }
        GrowStep(old(nodes), m, nodes, path, k);
      }
    }

    // Gives an existing node a value and the newest entry id, in place of its old entry.
    method SetValue(path: Path, value: CacheValue)
      requires path in nodes && entryCount == |lruMap|
      requires nodes[path].entryId.Some? ==> nodes[path].entryId.value in lruMap
      modifies this`nodes, this`lruMap, this`entryCount, this`nextEntryId
      ensures nodes == old(nodes)[path := old(nodes)[path].(value := Some(value), entryId := Some(old(nextEntryId)))]
      ensures lruMap == Without(old(lruMap), old(nodes)[path].entryId)[old(nextEntryId) := path]
      ensures nextEntryId == old(nextEntryId) + 1
      ensures entryCount == |Without(old(lruMap), old(nodes)[path].entryId)| + 1
    {
      var oldEntryId := nodes[path].entryId;
      if oldEntryId.Some? {
        DroppedSize(lruMap, oldEntryId.value);
        lruMap := lruMap - {oldEntryId.value};
        entryCount := SaturatingDec(entryCount);
      }
      var entryId := nextEntryId;
      nextEntryId := nextEntryId + 1;
      nodes := nodes[path := nodes[path].(value := Some(value), entryId := Some(entryId))];
      lruMap := lruMap[entryId := path];
      entryCount := entryCount + 1;
    }

    // The common part of the two puts: everything but summaries and edges.
    method Enter(path: Path, value: CacheValue)
      requires WellFormed(S())
      modifies this`nodes, this`lruMap, this`entryCount, this`nextEntryId
      ensures Entered(old(S()), S(), path, value)
    {
      ghost var c := S();
      hide WellFormed, Trie, Paired, ClearedTo, GrownTo, Entered, Without;
      Bookkeeping(c);
      ClearShallowValues(path);
      ghost var m := S();
      ClearedKeys(c, m, path, |path|);
      GrowPath(path);
      ghost var grown := nodes;
      TargetEntry(c, m, grown, path);
      SetValue(path, value);
      EnterParts(c, m, grown, Without(m.lru, grown[path].entryId), S(), path, value);
    }

    method MakeRoom(path: Path)
      requires Valid()
      modifies this
      ensures Valid() && MadeRoom(old(S()), S(), path, maxEntries) && Fits(S(), path, maxEntries)
      ensures orphaned == (old(orphaned) || RoomOrphans(old(S()), path, maxEntries))
    {
      ghost var c := S();
      hide WellFormed, SafeToEvict, Evicted;
      var isNewEntry := path !in nodes || nodes[path].value.None?;
      Bookkeeping(c);
      if isNewEntry && entryCount >= maxEntries {
        EvictLru();
        if c.lru != map[] { EvictedWellFormed(c, S(), MinOf(c.lru.Keys)); }
      }
    }

    // Every summary on the way to path is at least as long as ids afterwards.
    method RaiseSummaries(path: Path, ids: seq<InodeId>)
      requires forall k :: 0 <= k <= |path| ==> path[..k] in nodes
      modifies this`nodes
      ensures Raised(old(nodes), nodes, path, ids, 0)
    {
      for k := |path| + 1 downto 0
        invariant Raised(old(nodes), nodes, path, ids, k)
      {
        assert path[..k] in nodes;
        hide Raised;
        RaiseStep(old(nodes), nodes, path, ids, k);
        var held := nodes[path[..k]].deepest;
        if held.None? || |ids| > |held.value| {
          nodes := nodes[path[..k] := nodes[path[..k]].(deepest := Some(ids))];
        } else {
          assert nodes == nodes[path[..k] := nodes[path[..k]].(deepest := held)];
        }
      }
    }

    method IndexEdges(path: Path, ids: seq<InodeId>)
      requires |path| <= |ids|
      modifies this`edgeIndex
      ensures edgeIndex == PutEdges(old(edgeIndex), path, ids, |path|)
    {
      for i := 0 to |path|
        invariant edgeIndex == PutEdges(old(edgeIndex), path, ids, i)
      {
        edgeIndex := edgeIndex[(ids[i], path[i]) := path[..i + 1]];
      }
    }

    // put_ids_for_path; mid is the cache after any eviction
    method PutIds(path: Path, ids: seq<InodeId>) returns (ghost mid: CState)
      requires Valid()
      modifies this
      ensures Valid()
      ensures |ids| != |path| + 1 ==> S() == old(S()) && orphaned == old(orphaned)
      ensures |ids| == |path| + 1 ==> MadeRoom(old(S()), mid, path, maxEntries) && WellFormed(mid)
      ensures |ids| == |path| + 1 ==> StoredIds(mid, S(), path, ids)
      ensures |ids| == |path| + 1 ==>
        IdsFor(nodes, path) == Some(ids) && forall k :: 0 <= k <= |path| ==> IdsFor(nodes, path[..k]).Some?
      ensures |ids| == |path| + 1 ==> orphaned == (old(orphaned) || RoomOrphans(old(S()), path, maxEntries))
    {
      hide WellFormed, MadeRoom, RoomOrphans, Fits, Entered, Raised, StoredIds, Paired, Trie, IdsFor;
      if |ids| != |path| + 1 { return S(); }
      MakeRoom(path);
      mid := S();
      Bookkeeping(mid);
      Enter(path, InodeIds(ids));
      ghost var m := S();
      EnteredNodes(mid, m, path, InodeIds(ids));
      nodes := nodes[path := nodes[path].(deepest := Some(ids))];
      RaiseSummaries(path, ids);
      IndexEdges(path, ids);
      IdsParts(mid, m, S(), path, ids);
      StoredIdsWellFormed(mid, S(), path, ids);
      IdsFit(mid, S(), path, ids, maxEntries);
      StoredIsFound(mid, S(), path, ids);
    }

    // put_terminal_for_path; mid is the cache after any eviction
    method PutTerminal(path: Path, parents: seq<InodeId>, t: Terminal) returns (ghost mid: CState)
      requires Valid()
      modifies this
      ensures Valid()
      ensures |parents| != |path| ==> S() == old(S()) && orphaned == old(orphaned)
      ensures |parents| == |path| ==> MadeRoom(old(S()), mid, path, maxEntries) && WellFormed(mid)
      ensures |parents| == |path| ==> StoredTerminal(mid, S(), path, parents, t)
      ensures |parents| == |path| ==> HasTerminal(nodes, path) && nodes[path].value == Some(TerminalValue(t))
      ensures |parents| == |path| ==> orphaned == (old(orphaned) || RoomOrphans(old(S()), path, maxEntries))
    {
      hide WellFormed, MadeRoom, RoomOrphans, Fits, Entered, OnlySummaries, StoredTerminal, Paired, Trie, Best;
      if |parents| != |path| { return S(); }
      MakeRoom(path);
      mid := S();
      Bookkeeping(mid);
      Enter(path, TerminalValue(t));
      ghost var m := S();
      EnteredNodes(mid, m, path, TerminalValue(t));
      EnteredTrie(mid, m, path, TerminalValue(t));
      RecomputeUp(path);
      IndexEdges(path, parents);
      TerminalParts(mid, m, S(), path, parents, t);
      StoredTerminalWellFormed(mid, S(), path, parents, t);
      TerminalFits(mid, S(), path, parents, t, maxEntries);
      TerminalStored(mid, S(), path, parents, t);
    }

    // Removes a node with its LRU entry.
    method RemoveNode(p: Path)
      requires p in nodes && entryCount == |lruMap|
      requires nodes[p].entryId.Some? ==> nodes[p].entryId.value in lruMap
      modifies this`nodes, this`lruMap, this`entryCount
      ensures nodes == old(nodes) - {p} && lruMap == Without(old(lruMap), old(nodes)[p].entryId) && entryCount == |lruMap|
    {
      var entryId := nodes[p].entryId;
      if entryId.Some? {
        DroppedSize(lruMap, entryId.value);
        lruMap := lruMap - {entryId.value};
        entryCount := SaturatingDec(entryCount);
      }
      nodes := nodes - {p};
    }

    // Removes the nodes of a subtree one by one, with their LRU entries.
    method CutSubtree(prefix: Path)
      requires Paired(S()) && entryCount == |lruMap|
      modifies this`nodes, this`lruMap, this`entryCount
      ensures Cut(old(S()), S(), prefix, {})
    {
      ghost var c := S();
      var left := set p | p in nodes && prefix <= p;
      hide Paired, Cut;
      CutStart(c, prefix, left);
      while left != {}
        invariant Cut(c, S(), prefix, left) && entryCount == |lruMap|
        decreases |left|
      {
        var p :| p in left;
        ghost var m := S();
        CutEntry(c, m, prefix, left, p);
        RemoveNode(p);
        CutStep(c, m, S(), prefix, left, p);
        left := left - {p};
      }
    }

    // invalidate_prefix
    method InvalidatePrefix(prefix: Path)
      requires Valid()
      modifies this`nodes, this`edgeIndex, this`lruMap, this`entryCount
      ensures Valid() && Invalidated(old(S()), S(), prefix)
    {
      ghost var c := S();
      hide WellFormed, Paired, Trie, Cut, OnlySummaries, Best;
      Bookkeeping(c);
      if prefix == [] {
        nodes, edgeIndex, lruMap, entryCount := map[[] := EmptyNode], map[], map[], 0;
      } else {
        var parent := prefix[..|prefix| - 1];
        if parent !in nodes { return; }
        CutSubtree(prefix);
        ghost var m := S();
        CutTrie(c, m, prefix);
        edgeIndex := map k | k in edgeIndex && !(prefix <= edgeIndex[k]) :: edgeIndex[k];
        RecomputeUp(parent);
        hide Invalidated;
        InvalidatedParts(c, m, S(), prefix);
      }
      hide Invalidated;
      InvalidatedWellFormed(c, S(), prefix);
    }

    // invalidate_by_edge
    method InvalidateByEdge(parent: InodeId, name: Name)
      requires Valid()
      modifies this`nodes, this`edgeIndex, this`lruMap, this`entryCount
      ensures Valid() && EdgeInvalidated(old(S()), S(), (parent, name))
    {
      hide WellFormed, Invalidated;
      if (parent, name) in edgeIndex {
        InvalidatePrefix(edgeIndex[(parent, name)]);
      }
    }

    // get_ids_for_path
    method GetIds(path: Path) returns (ids: Option<seq<InodeId>>)
      requires Valid()
      modifies this`nodes, this`lruMap, this`nextEntryId
      ensures Valid()
      ensures ids == IdsFor(old(nodes), path)
      ensures if ids.Some? && old(nodes)[path].entryId.Some? then Refreshed(old(S()), S(), path) else S() == old(S())
    {
      hide WellFormed, Refreshed;
      if path !in nodes { return None; }
      var v := IdsAt(nodes, path);
      if v.None? || |v.value| < |path| + 1 { return None; }
      ids := Some(v.value[..|path| + 1]);
      var oldEntryId := nodes[path].entryId;
      if oldEntryId.Some? {
        ghost var c := S();
        RefreshLru(path, oldEntryId.value);
        RefreshedNodes(c, S(), path);
      }
    }

    // get_terminal_for_path: the shortest prefix of path at which a terminal is cached.
    method GetTerminal(path: Path) returns (hit: Option<(nat, Terminal)>)
      requires Valid()
      modifies this`nodes, this`lruMap, this`nextEntryId
      ensures Valid()
      ensures hit.None? ==> S() == old(S()) && forall k :: 0 < k <= |path| ==> !HasTerminal(nodes, path[..k])
      ensures hit.Some? ==> 0 < hit.value.0 <= |path|
      ensures hit.Some? ==> HasTerminal(old(nodes), path[..hit.value.0])
      ensures hit.Some? ==> old(nodes)[path[..hit.value.0]].value == Some(TerminalValue(hit.value.1))
      ensures hit.Some? ==> forall k :: 0 < k < hit.value.0 ==> !HasTerminal(old(nodes), path[..k])
      ensures hit.Some? ==> Refreshed(old(S()), S(), path[..hit.value.0])
    {
      ghost var c := S();
      Bookkeeping(c);
      hide WellFormed, Refreshed, Trie;
      var k := 0;
      while k < |path|
        invariant k <= |path| && S() == c
        invariant forall j :: 0 < j <= k ==> !HasTerminal(nodes, path[..j])
      {
        k := k + 1;
        if path[..k] !in nodes {
          NoTerminalBelow(nodes, path, k);
          return None;
        }
        if HasTerminal(nodes, path[..k]) {
          hit := Some((k, nodes[path[..k]].value.value.terminal));
          assert nodes[path[..k]].entryId.Some? by { assert Paired(c); }
          hide Paired;
          RefreshLru(path[..k], nodes[path[..k]].entryId.value);
          ghost var c2 := S();
          RefreshedFits(c, c2, path[..k]);
          return;
        }
      }
      return None;
    }

    // get_longest_prefix_ids_for_path: the ids cached for the longest possible prefix of path.
    method GetLongestPrefixIds(path: Path) returns (ids: Option<seq<InodeId>>)
      requires Valid()
      ensures LongestIds(nodes, path, |path|, ids)
    {
      Bookkeeping(S());
      hide WellFormed, Trie, Paired, IdsFor, LongestIds;
      LongestStart(nodes, path);
      ids := IdsFor(nodes, []);
      var depth := 0;
      while depth < |path| && path[..depth + 1] in nodes
        invariant depth <= |path| && LongestIds(nodes, path, depth, ids)
      {
        LongestStep(nodes, path, depth, ids);
        depth := depth + 1;
        var held := IdsFor(nodes, path[..depth]);
        if held.Some? { ids := held; }
      }
      LongestEnd(nodes, path, depth, ids);
    }
  }

  lemma EvictedParts(c: CState, c2: CState, oldest: nat, path: Path)
    requires c.lru != map[] && oldest == MinOf(c.lru.Keys) && path == c.lru[oldest]
    requires Removed(c.nodes, c2.nodes, path) && c2.lru == c.lru - {oldest}
    requires c2.edges == if path == [] then c.edges else map k | k in c.edges && c.edges[k] != path :: c.edges[k]
    requires c2.next == c.next && c2.count == |c2.lru|
    ensures Evicted(c, c2, oldest)
  {
    hide Removed;
  }
}
