// The value of a path-resolution cache, its bookkeeping invariant, and what it means for it to
// agree with a directory tree.  A trie node is identified by its path from the root.
module CacheState {
  import opened Bytes
  import opened FsTypes
  import opened Resolver

  datatype Terminal = TermObj(objId: ObjId) | TermLink(target: string)

  datatype CacheValue = InodeIds(ids: seq<InodeId>) | TerminalValue(terminal: Terminal)

  datatype Node = Node(value: Option<CacheValue>, deepest: Option<seq<InodeId>>, entryId: Option<nat>) {
    function Ids(): Option<seq<InodeId>> {
      if value.Some? && value.value.InodeIds? then Some(value.value.ids) else None
    }
  }

  const EmptyNode := Node(None, None, None)

  type Nodes = map<Path, Node>

  datatype CState = CState(nodes: Nodes, edges: map<Edge, Path>, lru: map<nat, Path>, count: nat, next: nat)

  // The empty cache.
  function Empty(next: nat): CState { CState(map[[] := EmptyNode], map[], map[], 0, next) }

  // p is a child of q in the trie.
  predicate ChildOf(p: Path, q: Path) {
    |p| == |q| + 1 && q <= p
  }

  ghost predicate Strictly(p: Path, q: Path) {
    p <= q && p != q
  }

  // ---- bookkeeping ----

  // The nodes form a trie.
  ghost predicate Trie(nodes: Nodes) {
    [] in nodes && forall p :: p in nodes && p != [] ==> p[..|p| - 1] in nodes
  }

  // Entry ids in the LRU map and nodes with a value correspond one to one.
  ghost predicate Paired(c: CState) {
    (forall p :: p in c.nodes ==> (c.nodes[p].value.Some? <==> c.nodes[p].entryId.Some?)) &&
    (forall p :: p in c.nodes && c.nodes[p].entryId.Some? ==>
      c.nodes[p].entryId.value in c.lru && c.lru[c.nodes[p].entryId.value] == p) &&
    (forall e :: e in c.lru ==> e < c.next && c.lru[e] in c.nodes && c.nodes[c.lru[e]].entryId == Some(e))
  }

  // A cached id vector has one id more than its path has components.
  ghost predicate Sized(nodes: Nodes) {
    forall p :: p in nodes && nodes[p].Ids().Some? ==> |nodes[p].Ids().value| == |p| + 1
  }

  // The summary of a node reaches at least the node, and exists if anything below it is cached.
  ghost predicate Summary(nodes: Nodes, q: Path)
    requires q in nodes
  {
    (nodes[q].deepest.Some? ==> |nodes[q].deepest.value| >= |q| + 1) &&
    (forall p :: p in nodes && q <= p && nodes[p].Ids().Some? ==> nodes[q].deepest.Some?)
  }

  ghost predicate Summaries(nodes: Nodes) {
    forall q :: q in nodes ==> Summary(nodes, q)
  }

  ghost predicate WellFormed(c: CState) {
    Trie(c.nodes) && Paired(c) && Sized(c.nodes) && Summaries(c.nodes) && c.count == |c.lru|
  }

  // The nodes holding a value.
  ghost function Entries(nodes: Nodes): set<Path> {
    set p | p in nodes && nodes[p].value.Some?
  }

  // As many entries are counted as there are nodes with a value.
  lemma CountIsEntries(c: CState)
    requires WellFormed(c)
    ensures c.count == |c.lru.Keys| == |Entries(c.nodes)|
  {
    assert c.lru.Keys == set e | e in c.lru;
    SameSize(c, c.lru.Keys, Entries(c.nodes));
  }

  lemma {:induction false} SameSize(c: CState, ids: set<nat>, paths: set<Path>)
    requires Paired(c)
    requires forall e :: e in ids ==> e in c.lru && c.lru[e] in paths
    requires forall p :: p in paths ==> p in c.nodes && c.nodes[p].entryId.Some? && c.nodes[p].entryId.value in ids
    ensures |ids| == |paths|
    decreases |ids|
  {
    if ids == {} {
      assert paths == {};
    } else {
      var e :| e in ids;
      SameSize(c, ids - {e}, paths - {c.lru[e]});
    }
  }

  // Every cached id vector answers every prefix of its path with a vector of the right length.
  function IdsAt(nodes: Nodes, q: Path): Option<seq<InodeId>>
    requires q in nodes
  {
    if nodes[q].Ids().Some? then nodes[q].Ids() else nodes[q].deepest
  }

  lemma PrefixesAnswered(c: CState, p: Path, q: Path)
    requires WellFormed(c) && p in c.nodes && c.nodes[p].Ids().Some? && q <= p
    ensures q in c.nodes && IdsAt(c.nodes, q).Some? && |IdsAt(c.nodes, q).value| >= |q| + 1
  {
    PrefixInTrie(c.nodes, p, q);
    assert Summary(c.nodes, q);
  }

  lemma {:induction false} PrefixInTrie(nodes: Nodes, p: Path, q: Path)
    requires Trie(nodes) && p in nodes && q <= p
    ensures q in nodes
    decreases |p|
  {
    if q != p {
      PrefixInTrie(nodes, p[..|p| - 1], q);
    }
  }

  // ---- recomputing summaries ----

  ghost predicate Candidate(nodes: Nodes, p: Path, v: seq<InodeId>)
    requires p in nodes
  {
    nodes[p].Ids() == Some(v) || exists q :: q in nodes && ChildOf(q, p) && nodes[q].deepest == Some(v)
  }

  // recompute_deepest_inode: a longest vector among the node's own and its children's summaries.
  ghost predicate Best(nodes: Nodes, p: Path)
    requires p in nodes
  {
    (nodes[p].deepest.Some? ==> Candidate(nodes, p, nodes[p].deepest.value)) &&
    (nodes[p].Ids().Some? ==>
      nodes[p].deepest.Some? && |nodes[p].Ids().value| <= |nodes[p].deepest.value|) &&
    (forall q :: q in nodes && ChildOf(q, p) && nodes[q].deepest.Some? ==>
      nodes[p].deepest.Some? && |nodes[q].deepest.value| <= |nodes[p].deepest.value|)
  }

  // Recomputed bottom-up along a path, summaries are right there if they are right elsewhere.
  lemma {:induction false} RecomputedSummary(nodes: Nodes, path: Path, q: Path)
    requires Trie(nodes) && Sized(nodes) && q in nodes
    requires forall p :: p in nodes && p <= path ==> Best(nodes, p)
    requires forall p :: p in nodes && !(p <= path) ==> Summary(nodes, p)
    ensures Summary(nodes, q)
    decreases |path| - |q|
  {
    if q <= path {
      forall c | c in nodes && ChildOf(c, q) ensures Summary(nodes, c) {
        if c <= path { RecomputedSummary(nodes, path, c); }
      }
      forall p | p in nodes && q <= p && nodes[p].Ids().Some? ensures nodes[q].deepest.Some? {
        if p != q {
          var c := p[..|q| + 1];
          PrefixInTrie(nodes, p, c);
          assert ChildOf(c, q) && Summary(nodes, c);
        }
      }
    }
  }

  // A summary held for some entry at or below the node.
  ghost predicate Witnessed(nodes: Nodes, q: Path)
    requires q in nodes
  {
    nodes[q].deepest.Some? ==>
      exists r :: r in nodes && q <= r && nodes[r].Ids() == nodes[q].deepest
  }

  lemma {:induction false} RecomputedWitness(nodes: Nodes, path: Path, q: Path)
    requires q in nodes
    requires forall p :: p in nodes && p <= path ==> Best(nodes, p)
    requires forall p :: p in nodes && !(p <= path) ==> Witnessed(nodes, p)
    ensures Witnessed(nodes, q)
    decreases |path| - |q|
  {
    if q <= path && nodes[q].deepest.Some? {
      var v := nodes[q].deepest.value;
      assert Candidate(nodes, q, v);
      if nodes[q].Ids() != Some(v) {
        var c :| c in nodes && ChildOf(c, q) && nodes[c].deepest == Some(v);
        if c <= path { RecomputedWitness(nodes, path, c); }
        var r :| r in nodes && c <= r && nodes[r].Ids() == Some(v);
        assert q <= r;
      }
    }
  }

  // ---- what the operations do to the state ----

  // Adds the edges of a path whose directories are ids[0], ids[1], ...
  function PutEdges(edges: map<Edge, Path>, path: Path, ids: seq<InodeId>, n: nat): map<Edge, Path>
    requires n <= |path| && n <= |ids|
  {
    if n == 0 then edges
    else PutEdges(edges, path, ids, n - 1)[(ids[n - 1], path[n - 1]) := path[..n]]
  }

  // The entries left in the LRU map when those on the way to path are dropped.
  function Unshadowed(lru: map<nat, Path>, path: Path): map<nat, Path> {
    map e | e in lru && !(lru[e] <= path) :: lru[e]
  }

  function Longer(held: Option<seq<InodeId>>, ids: seq<InodeId>): Option<seq<InodeId>> {
    if held.Some? && |ids| <= |held.value| then held else Some(ids)
  }

  // refresh_lru_for_path
  ghost predicate Refreshed(c: CState, c2: CState, path: Path) {
    path in c.nodes && c.nodes[path].entryId.Some? &&
    c2 == c.(nodes := c.nodes[path := c.nodes[path].(entryId := Some(c.next))],
             lru := (c.lru - {c.nodes[path].entryId.value})[c.next := path],
             next := c.next + 1)
  }

  // The entry at path is gone and the summaries above it are recomputed.
  ghost predicate Removed(nodes: Nodes, nodes2: Nodes, path: Path) {
    nodes2.Keys == nodes.Keys &&
    forall p :: p in nodes ==>
      if p <= path then
        Best(nodes2, p) &&
        (p == path ==> nodes2[p].value == None && nodes2[p].entryId == None) &&
        (p != path ==> nodes2[p].value == nodes[p].value && nodes2[p].entryId == nodes[p].entryId)
      else nodes2[p] == nodes[p]
  }

  // evict_lru removes the entry with the smallest id, and the edge row for exactly its path.
  ghost predicate Evicted(c: CState, c2: CState, oldest: nat) {
    oldest in c.lru && (forall e :: e in c.lru ==> oldest <= e) &&
    var path := c.lru[oldest];
    Removed(c.nodes, c2.nodes, path) &&
    c2.lru == c.lru - {oldest} &&
    c2.edges == (if path == [] then c.edges else map k | k in c.edges && c.edges[k] != path :: c.edges[k]) &&
    c2.next == c.next && c2.count == |c2.lru|
  }

  ghost predicate Stored(c: CState, c2: CState, path: Path, value: CacheValue, ids: seq<InodeId>) {
    |path| <= |ids| &&
    (forall p :: p in c2.nodes <==> p in c.nodes || p <= path) &&
    (forall p :: p in c2.nodes && !(p <= path) ==> c2.nodes[p] == c.nodes[p]) &&
    (forall p :: p in c2.nodes && Strictly(p, path) ==> c2.nodes[p].value == None && c2.nodes[p].entryId == None) &&
    c2.nodes[path].value == Some(value) && c2.nodes[path].entryId == Some(c.next) &&
    c2.lru == Unshadowed(c.lru, path)[c.next := path] && c2.next == c.next + 1 && c2.count == |c2.lru| &&
    c2.edges == PutEdges(c.edges, path, ids, |path|)
  }

  // put_ids_for_path, after any eviction.
  ghost predicate StoredIds(c: CState, c2: CState, path: Path, ids: seq<InodeId>) {
    |ids| == |path| + 1 && Stored(c, c2, path, InodeIds(ids), ids) &&
    c2.nodes[path].deepest == Some(ids) &&
    forall p :: p in c2.nodes && Strictly(p, path) ==>
      c2.nodes[p].deepest == Longer(if p in c.nodes then c.nodes[p].deepest else None, ids)
  }

  // put_terminal_for_path, after any eviction.
  ghost predicate StoredTerminal(c: CState, c2: CState, path: Path, parents: seq<InodeId>, t: Terminal) {
    |parents| == |path| && Stored(c, c2, path, TerminalValue(t), parents) &&
    forall p :: p in c2.nodes && p <= path ==> Best(c2.nodes, p)
  }

  // invalidate_prefix: the subtree is cut off, with its edge rows and LRU entries.
  ghost predicate Invalidated(c: CState, c2: CState, prefix: Path) {
    if prefix == [] then c2 == Empty(c.next)
    else if prefix[..|prefix| - 1] !in c.nodes then c2 == c
    else
      (forall p :: p in c2.nodes <==> p in c.nodes && !(prefix <= p)) &&
      (forall p :: p in c2.nodes ==>
        if Strictly(p, prefix)
        then Best(c2.nodes, p) && c2.nodes[p].value == c.nodes[p].value && c2.nodes[p].entryId == c.nodes[p].entryId
        else c2.nodes[p] == c.nodes[p]) &&
      c2.edges == (map k | k in c.edges && !(prefix <= c.edges[k]) :: c.edges[k]) &&
      c2.lru == (map e | e in c.lru && !(prefix <= c.lru[e]) :: c.lru[e]) &&
      c2.next == c.next && c2.count == |c2.lru|
  }

  // ---- the operations keep the bookkeeping ----

  lemma InitWellFormed(next: nat)
    ensures WellFormed(Empty(next))
  {
  }

  lemma DroppedSize(lru: map<nat, Path>, e: nat)
    requires e in lru
    ensures |lru - {e}| == |lru| - 1
  {
    assert (lru - {e}).Keys == lru.Keys - {e};
  }

  lemma AddedSize(lru: map<nat, Path>, e: nat, path: Path)
    requires e !in lru
    ensures |lru[e := path]| == |lru| + 1
  {
    assert lru[e := path].Keys == lru.Keys + {e};
  }

  // Nodes that agree on keys, cached vectors and summaries agree on the invariants about them.
  lemma SameShape(nodes: Nodes, nodes2: Nodes)
    requires Trie(nodes) && Sized(nodes) && Summaries(nodes)
    requires nodes2.Keys == nodes.Keys
    requires forall p :: p in nodes ==> nodes2[p].Ids() == nodes[p].Ids() && nodes2[p].deepest == nodes[p].deepest
    ensures Trie(nodes2) && Sized(nodes2) && Summaries(nodes2)
  {
    assert Trie(nodes2);
    assert Sized(nodes2);
    forall q | q in nodes2 ensures Summary(nodes2, q) {
      hide Trie, Sized;
      assert Summary(nodes, q);
    }
  }

  // A summary stays right while nothing below its node gains a vector.
  lemma SummaryKept(nodes: Nodes, nodes2: Nodes, q: Path)
    requires q in nodes && q in nodes2 && Summary(nodes, q) && nodes2[q].deepest == nodes[q].deepest
    requires forall p :: p in nodes2 && q <= p && nodes2[p].Ids().Some? ==> p in nodes && nodes[p].Ids().Some?
    ensures Summary(nodes2, q)
  {
  }

  lemma RefreshedPaired(c: CState, c2: CState, path: Path)
    requires Paired(c) && Refreshed(c, c2, path)
    ensures Paired(c2) && c.next !in c.lru && |c2.lru| == |c.lru|
  {
    var e := c.nodes[path].entryId.value;
    assert c.next !in c.lru;
    DroppedSize(c.lru, e);
    AddedSize(c.lru - {e}, c.next, path);
  }

  lemma RefreshedNodes(c: CState, c2: CState, path: Path)
    requires Refreshed(c, c2, path)
    ensures c2.count == c.count && c2.edges == c.edges && c2.nodes.Keys == c.nodes.Keys
    ensures forall p :: p in c.nodes ==>
      c2.nodes[p].value == c.nodes[p].value && c2.nodes[p].deepest == c.nodes[p].deepest
  {
  }

  lemma RefreshedWellFormed(c: CState, c2: CState, path: Path)
    requires WellFormed(c) && Refreshed(c, c2, path)
    ensures WellFormed(c2)
  {
    hide Paired, Trie, Sized, Summaries;
    RefreshedPaired(c, c2, path);
    RefreshedNodes(c, c2, path);
    hide Refreshed;
    SameShape(c.nodes, c2.nodes);
  }

  lemma RemovedIds(nodes: Nodes, nodes2: Nodes, path: Path)
    requires Removed(nodes, nodes2, path)
    ensures nodes2.Keys == nodes.Keys
    ensures forall p :: p in nodes2 && p <= path ==> Best(nodes2, p)
    ensures forall p :: p in nodes2 && nodes2[p].Ids().Some? ==> nodes2[p].Ids() == nodes[p].Ids()
    ensures forall p :: p in nodes2 && !(p <= path) ==> nodes2[p] == nodes[p]
  {
    hide Best;
  }

  lemma RemovedWellFormed(nodes: Nodes, nodes2: Nodes, path: Path)
    requires Trie(nodes) && Sized(nodes) && Summaries(nodes) && Removed(nodes, nodes2, path)
    ensures Trie(nodes2) && Sized(nodes2) && Summaries(nodes2)
  {
    hide Removed, Best, Summary;
    RemovedIds(nodes, nodes2, path);
    assert Trie(nodes2);
    assert Sized(nodes2);
    hide Trie, Sized;
    forall q | q in nodes2 && !(q <= path) ensures Summary(nodes2, q) {
      SummaryKept(nodes, nodes2, q);
    }
    forall q | q in nodes2 ensures Summary(nodes2, q) {
      RecomputedSummary(nodes2, path, q);
    }
  }

  lemma EvictedPaired(c: CState, c2: CState, oldest: nat)
    requires Paired(c) && Evicted(c, c2, oldest)
    ensures Paired(c2)
  {
    RemovedEntries(c.nodes, c2.nodes, c.lru[oldest]);
    hide Removed;
  }

  lemma RemovedEntries(nodes: Nodes, nodes2: Nodes, path: Path)
    requires Removed(nodes, nodes2, path)
    ensures nodes2.Keys == nodes.Keys && (path in nodes ==> nodes2[path].value == None && nodes2[path].entryId == None)
    ensures forall p :: p in nodes && p != path ==>
      nodes2[p].value == nodes[p].value && nodes2[p].entryId == nodes[p].entryId
  {
    hide Best;
  }

  lemma EvictedWellFormed(c: CState, c2: CState, oldest: nat)
    requires WellFormed(c) && Evicted(c, c2, oldest)
    ensures WellFormed(c2) && c2.count == c.count - 1
  {
    EvictedPaired(c, c2, oldest);
    DroppedSize(c.lru, oldest);
    hide Removed, Paired, Trie, Sized, Summaries, Best;
    RemovedWellFormed(c.nodes, c2.nodes, c.lru[oldest]);
  }

  lemma StoredTrie(c: CState, c2: CState, path: Path, value: CacheValue, ids: seq<InodeId>)
    requires Trie(c.nodes) && Stored(c, c2, path, value, ids)
    ensures Trie(c2.nodes)
  {
    forall p | p in c2.nodes && p != [] ensures p[..|p| - 1] in c2.nodes {
      if p <= path { assert p[..|p| - 1] <= path; }
    }
  }

  lemma StoredPaired(c: CState, c2: CState, path: Path, value: CacheValue, ids: seq<InodeId>)
    requires Paired(c) && Stored(c, c2, path, value, ids)
    ensures Paired(c2)
  {
  }

  lemma StoredSized(c: CState, c2: CState, path: Path, value: CacheValue, ids: seq<InodeId>)
    requires Sized(c.nodes) && Stored(c, c2, path, value, ids)
    requires value.InodeIds? ==> |value.ids| == |path| + 1
    ensures Sized(c2.nodes)
  {
  }

  // Nodes off the stored path, and what is below them, are the old ones.
  lemma StoredOffPath(c: CState, c2: CState, path: Path, value: CacheValue, ids: seq<InodeId>)
    requires Trie(c.nodes) && Summaries(c.nodes) && Stored(c, c2, path, value, ids)
    ensures forall q :: q in c2.nodes && !(q <= path) ==> Summary(c2.nodes, q)
  {
    hide Trie, PutEdges, Unshadowed;
    forall q | q in c2.nodes && !(q <= path) ensures Summary(c2.nodes, q) {
      assert Summary(c.nodes, q);
      hide Summary;
      SummaryKept(c.nodes, c2.nodes, q);
    }
  }

  lemma StoredIdsSummaries(c: CState, c2: CState, path: Path, ids: seq<InodeId>)
    requires Trie(c.nodes) && Summaries(c.nodes) && StoredIds(c, c2, path, ids)
    ensures Summaries(c2.nodes)
  {
    StoredOffPath(c, c2, path, InodeIds(ids), ids);
    hide Trie, Stored, StoredIds, Summary;
    forall q | q in c2.nodes && q <= path ensures Summary(c2.nodes, q) {
      if q in c.nodes { assert Summary(c.nodes, q); }
      StoredIdsSummary(c, c2, path, ids, q);
    }
  }

  lemma StoredIdsSummary(c: CState, c2: CState, path: Path, ids: seq<InodeId>, q: Path)
    requires (q in c.nodes ==> Summary(c.nodes, q)) && StoredIds(c, c2, path, ids) && q in c2.nodes && q <= path
    ensures Summary(c2.nodes, q)
  {
    hide PutEdges, Unshadowed;
  }

  lemma StoredIdsWellFormed(c: CState, c2: CState, path: Path, ids: seq<InodeId>)
    requires WellFormed(c) && StoredIds(c, c2, path, ids)
    ensures WellFormed(c2)
  {
    hide Paired, Trie, Sized, Summaries, PutEdges, Unshadowed;
    StoredIdsSummaries(c, c2, path, ids);
    StoredTrie(c, c2, path, InodeIds(ids), ids);
    StoredPaired(c, c2, path, InodeIds(ids), ids);
    StoredSized(c, c2, path, InodeIds(ids), ids);
  }

  lemma StoredTerminalWellFormed(c: CState, c2: CState, path: Path, parents: seq<InodeId>, t: Terminal)
    requires WellFormed(c) && StoredTerminal(c, c2, path, parents, t)
    ensures WellFormed(c2)
  {
    hide Paired, Trie, Sized, Summary, Best, PutEdges, Unshadowed;
    StoredTrie(c, c2, path, TerminalValue(t), parents);
    StoredPaired(c, c2, path, TerminalValue(t), parents);
    StoredSized(c, c2, path, TerminalValue(t), parents);
    StoredOffPath(c, c2, path, TerminalValue(t), parents);
    forall q | q in c2.nodes ensures Summary(c2.nodes, q) {
      RecomputedSummary(c2.nodes, path, q);
    }
  }

  // A store adds one entry and drops those it shadows, so the count stays within the limit.
  lemma StoredCount(c: CState, c2: CState, path: Path, value: CacheValue, ids: seq<InodeId>)
    requires Paired(c) && c.count == |c.lru| && Stored(c, c2, path, value, ids)
    ensures c2.count <= c.count + 1
    ensures path in c.nodes && c.nodes[path].value.Some? ==> c2.count <= c.count
  {
    var kept := Unshadowed(c.lru, path);
    assert c.next !in kept;
    AddedSize(kept, c.next, path);
    SubsetSize(kept.Keys, c.lru.Keys);
    if path in c.nodes && c.nodes[path].value.Some? {
      var e := c.nodes[path].entryId.value;
      DroppedSize(c.lru, e);
      assert kept.Keys <= (c.lru - {e}).Keys;
      SubsetSize(kept.Keys, (c.lru - {e}).Keys);
    }
  }

  lemma {:induction false} SubsetSize(a: set<nat>, b: set<nat>)
    requires a <= b
    ensures |a| <= |b|
    decreases |a|
  {
    if a != {} {
      var x :| x in a;
      SubsetSize(a - {x}, b - {x});
    }
  }

  lemma InvalidatedTrie(c: CState, c2: CState, prefix: Path)
    requires Trie(c.nodes) && Invalidated(c, c2, prefix)
    ensures Trie(c2.nodes)
  {
    hide Best;
    forall p | p in c2.nodes && p != [] ensures p[..|p| - 1] in c2.nodes {
      assert prefix <= p[..|p| - 1] ==> prefix <= p;
    }
  }

  lemma InvalidatedPaired(c: CState, c2: CState, prefix: Path)
    requires Paired(c) && Invalidated(c, c2, prefix)
    ensures Paired(c2)
  {
    hide Best;
  }

  // The nodes left after an invalidation that found the prefix's parent.
  lemma InvalidatedNodes(c: CState, c2: CState, prefix: Path)
    requires Invalidated(c, c2, prefix) && prefix != [] && prefix[..|prefix| - 1] in c.nodes
    ensures forall p :: p in c2.nodes ==> p in c.nodes && c2.nodes[p].Ids() == c.nodes[p].Ids()
    ensures forall p :: p in c2.nodes && p <= prefix[..|prefix| - 1] ==> Best(c2.nodes, p)
    ensures forall p :: p in c2.nodes && !(p <= prefix[..|prefix| - 1]) ==> c2.nodes[p] == c.nodes[p]
  {
    hide Best;
    assert forall p :: Strictly(p, prefix) <==> p <= prefix[..|prefix| - 1];
  }

  lemma InvalidatedSummaries(c: CState, c2: CState, prefix: Path)
    requires Sized(c.nodes) && Summaries(c.nodes) && Trie(c2.nodes) && Invalidated(c, c2, prefix)
    requires prefix != [] && prefix[..|prefix| - 1] in c.nodes
    ensures Sized(c2.nodes) && Summaries(c2.nodes)
  {
    hide Invalidated, Trie, Best, Summary;
    InvalidatedNodes(c, c2, prefix);
    assert Sized(c2.nodes);
    hide Sized;
    var parent := prefix[..|prefix| - 1];
    forall q | q in c2.nodes && !(q <= parent) ensures Summary(c2.nodes, q) {
      SummaryKept(c.nodes, c2.nodes, q);
    }
    forall q | q in c2.nodes ensures Summary(c2.nodes, q) {
      RecomputedSummary(c2.nodes, parent, q);
    }
  }

  lemma InvalidatedWellFormed(c: CState, c2: CState, prefix: Path)
    requires WellFormed(c) && Invalidated(c, c2, prefix)
    ensures WellFormed(c2) && c2.count <= c.count
  {
    hide Paired, Trie, Sized, Summaries;
    if prefix == [] {
      InitWellFormed(c.next);
    } else {
      InvalidatedTrie(c, c2, prefix);
      InvalidatedPaired(c, c2, prefix);
      if prefix[..|prefix| - 1] in c.nodes {
        InvalidatedSummaries(c, c2, prefix);
        hide Best;
        SubsetSize(c2.lru.Keys, c.lru.Keys);
      }
    }
  }
}
