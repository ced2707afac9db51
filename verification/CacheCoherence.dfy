// When the contents of a path-resolution cache agree with the directory tree, which operations keep
// it so, and the one that can lose track of an edge: eviction.
module CacheCoherence {
  import opened Bytes
  import opened FsTypes
  import opened Resolver
  import opened CacheState

  // The inodes from the root along path, following dentries that name inodes.
  ghost function Chain(db: Db, path: Path): (ids: Option<seq<InodeId>>)
    ensures ids.Some? ==> |ids.value| == |path| + 1
  {
    if path == [] then Some([ROOT])
    else
      var front, name := path[..|path| - 1], path[|path| - 1];
      var ids := Chain(db, front);
      if ids.Some? && (ids.value[|front|], name) in db.dentries &&
         db.dentries[(ids.value[|front|], name)].target.Inode?
      then Some(ids.value + [db.dentries[(ids.value[|front|], name)].target.id])
      else None
  }

  // The inode a chain ends in.
  ghost function End(db: Db, path: Path): InodeId
    requires Chain(db, path).Some?
  {
    Chain(db, path).value[|path|]
  }

  ghost predicate SameInode(d: Dentry, e: Dentry) {
    d.target.Inode? && d.target == e.target
  }

  // Every inode has at most one incoming dentry, and the root has none.
  ghost predicate UniqueParents(db: Db) {
    (forall e :: e in db.dentries ==> db.dentries[e].target != Inode(ROOT)) &&
    (forall e, f :: e in db.dentries && f in db.dentries && SameInode(db.dentries[e], db.dentries[f]) ==> e == f)
  }

  // The last step of a chain is a dentry.
  lemma ChainLast(db: Db, path: Path)
    requires Chain(db, path).Some? && path != []
    ensures Chain(db, path[..|path| - 1]).Some?
    ensures (End(db, path[..|path| - 1]), path[|path| - 1]) in db.dentries
    ensures db.dentries[(End(db, path[..|path| - 1]), path[|path| - 1])].target == Inode(End(db, path))
  {
  }

  lemma {:induction false} ChainPrefix(db: Db, path: Path, k: nat)
    requires Chain(db, path).Some? && k <= |path|
    ensures Chain(db, path[..k]) == Some(Chain(db, path).value[..k + 1])
    decreases |path|
  {
    if k == |path| {
      assert path[..k] == path;
      assert Chain(db, path).value[..k + 1] == Chain(db, path).value;
    } else {
      var front := path[..|path| - 1];
      ChainPrefix(db, front, k);
      assert front[..k] == path[..k];
      assert Chain(db, path).value[..k + 1] == Chain(db, front).value[..k + 1];
    }
  }

  // Two paths that end in the same inode are the same path.
  lemma {:induction false} ChainUnique(db: Db, p: Path, q: Path)
    requires UniqueParents(db) && Chain(db, p).Some? && Chain(db, q).Some? && End(db, p) == End(db, q)
    ensures p == q
    decreases |p|
  {
    if p != [] { ChainLast(db, p); }
    if q != [] { ChainLast(db, q); }
    if p != [] && q != [] {
      ChainUnique(db, p[..|p| - 1], q[..|q| - 1]);
      assert p == p[..|p| - 1] + [p[|p| - 1]] && q == q[..|q| - 1] + [q[|q| - 1]];
    }
  }

  // Walking a path may start at the end of any chain along it.
  lemma {:induction false} WalkFromChain(db: Db, objects: DirObjects, path: Path, k: nat)
    requires k <= |path| && Chain(db, path[..k]).Some?
    ensures WalkFrom(db, objects, ROOT, path, 0) == WalkFrom(db, objects, End(db, path[..k]), path, k)
    decreases k
  {
    if k > 0 {
      assert path[..k][..k - 1] == path[..k - 1];
      WalkFromChain(db, objects, path, k - 1);
    }
  }

  // ---- agreement ----

  function TargetOf(t: Terminal): DentryTarget {
    match t
    case TermObj(o) => Obj(o)
    case TermLink(target) => SymLink(target)
  }

  // The parent of path is reached by a chain and has t under the last name.
  ghost predicate EndsIn(db: Db, objects: DirObjects, path: Path, t: Terminal) {
    path != [] && Chain(db, path[..|path| - 1]).Some? &&
    Lookup(db, objects, End(db, path[..|path| - 1]), path[|path| - 1]) == Found(TargetOf(t))
  }

  ghost predicate TrueValue(db: Db, objects: DirObjects, path: Path, value: CacheValue) {
    match value
    case InodeIds(ids) => Chain(db, path) == Some(ids)
    case TerminalValue(t) => EndsIn(db, objects, path, t)
  }

  ghost predicate TrueValues(nodes: Nodes, db: Db, objects: DirObjects) {
    forall p :: p in nodes && nodes[p].value.Some? ==> TrueValue(db, objects, p, nodes[p].value.value)
  }

  ghost predicate AllWitnessed(nodes: Nodes) {
    forall p :: p in nodes ==> Witnessed(nodes, p)
  }

  // Everything the cache holds is a chain, or ends a chain, of current edges.
  ghost predicate Faithful(nodes: Nodes, db: Db, objects: DirObjects) {
    TrueValues(nodes, db, objects) && AllWitnessed(nodes)
  }

  // The directories on the way to an entry are reached by chains.
  lemma DirsReached(db: Db, objects: DirObjects, path: Path, value: CacheValue, i: nat)
    requires TrueValue(db, objects, path, value) && i < |path|
    ensures Chain(db, path[..i]).Some?
  {
    if value.InodeIds? {
      ChainPrefix(db, path, i);
    } else {
      ChainPrefix(db, path[..|path| - 1], i);
      assert path[..|path| - 1][..i] == path[..i];
    }
  }

  // The i-th edge of an entry is indexed, under the prefix it completes.
  ghost predicate Indexed(edges: map<Edge, Path>, db: Db, path: Path, i: nat)
    requires i < |path|
  {
    Chain(db, path[..i]).Some? && (End(db, path[..i]), path[i]) in edges &&
    edges[(End(db, path[..i]), path[i])] == path[..i + 1]
  }

  ghost predicate AllIndexed(edges: map<Edge, Path>, db: Db, path: Path) {
    forall i :: 0 <= i < |path| ==> Indexed(edges, db, path, i)
  }

  // The edge index knows every edge that any entry depends on.
  ghost predicate Covered(c: CState, db: Db) {
    forall p :: p in c.nodes && c.nodes[p].value.Some? ==> AllIndexed(c.edges, db, p)
  }

  // An entry at path depends on edge e.
  ghost predicate Uses(db: Db, path: Path, e: Edge) {
    exists i :: 0 <= i < |path| && Chain(db, path[..i]).Some? && e == (End(db, path[..i]), path[i])
  }

  ghost predicate Unused(nodes: Nodes, db: Db, e: Edge) {
    forall p :: p in nodes && nodes[p].value.Some? ==> !Uses(db, p, e)
  }

  // ---- what lookups in a faithful cache answer ----

  // A node's summary, cut to the length of its path, is the chain to it.
  lemma SummaryIsChain(nodes: Nodes, db: Db, objects: DirObjects, q: Path, v: seq<InodeId>)
    requires Faithful(nodes, db, objects) && q in nodes && IdsAt(nodes, q) == Some(v) && |v| >= |q| + 1
    ensures Chain(db, q) == Some(v[..|q| + 1])
  {
    var r := q;
    if nodes[q].Ids().None? {
      assert Witnessed(nodes, q);
      r :| r in nodes && q <= r && nodes[r].Ids() == nodes[q].deepest;
    }
    assert TrueValue(db, objects, r, nodes[r].value.value);
    ChainPrefix(db, r, |q|);
    assert r[..|q|] == q;
  }

  // A cached terminal is where the walk along any longer path stops.
  lemma TerminalStopsWalk(db: Db, objects: DirObjects, path: Path, k: nat, t: Terminal)
    requires 0 < k <= |path| && EndsIn(db, objects, path[..k], t)
    ensures WalkFrom(db, objects, ROOT, path, 0) ==
      match t { case TermObj(o) => AtObj(o, k - 1) case TermLink(target) => AtLink(target, k - 1) }
  {
    assert path[..k][..k - 1] == path[..k - 1];
    WalkFromChain(db, objects, path, k - 1);
  }

  // ---- storing ----

  lemma StoredTrueValues(c: CState, c2: CState, path: Path, value: CacheValue, ids: seq<InodeId>,
                         db: Db, objects: DirObjects)
    requires TrueValues(c.nodes, db, objects) && Stored(c, c2, path, value, ids)
    requires TrueValue(db, objects, path, value)
    ensures TrueValues(c2.nodes, db, objects)
  {
    hide TrueValue, PutEdges, Unshadowed;
  }

  // A node off the stored path keeps its witness: it cannot be on the stored path either.
  lemma WitnessKept(nodes: Nodes, nodes2: Nodes, path: Path, q: Path)
    requires q in nodes && q in nodes2 && !(q <= path) && Witnessed(nodes, q)
    requires nodes2[q].deepest == nodes[q].deepest
    requires forall r :: r in nodes && q <= r ==> r in nodes2 && nodes2[r].Ids() == nodes[r].Ids()
    ensures Witnessed(nodes2, q)
  {
    if nodes[q].deepest.Some? {
      var r :| r in nodes && q <= r && nodes[r].Ids() == nodes[q].deepest;
      assert nodes2[r].Ids() == nodes2[q].deepest;
    }
  }

  lemma StoredWitnessOffPath(c: CState, c2: CState, path: Path, value: CacheValue, ids: seq<InodeId>, q: Path)
    requires AllWitnessed(c.nodes) && Stored(c, c2, path, value, ids) && q in c2.nodes && !(q <= path)
    ensures Witnessed(c2.nodes, q)
  {
    assert Witnessed(c.nodes, q);
    hide Witnessed, PutEdges, Unshadowed;
    forall r | r in c.nodes && q <= r ensures r in c2.nodes && c2.nodes[r].Ids() == c.nodes[r].Ids() {
      assert !(r <= path);
    }
    WitnessKept(c.nodes, c2.nodes, path, q);
  }

  lemma StoredIdsWitness(c: CState, c2: CState, path: Path, ids: seq<InodeId>, db: Db, objects: DirObjects, q: Path)
    requires Faithful(c.nodes, db, objects) && StoredIds(c, c2, path, ids) && Chain(db, path) == Some(ids)
    requires q in c2.nodes && q <= path
    ensures Witnessed(c2.nodes, q)
  {
    hide PutEdges, Unshadowed;
    assert c2.nodes[path].Ids() == Some(ids);
    if c2.nodes[q].deepest != Some(ids) {
      assert Witnessed(c.nodes, q);
      var r :| r in c.nodes && q <= r && c.nodes[r].Ids() == c.nodes[q].deepest;
      assert TrueValue(db, objects, r, c.nodes[r].value.value);
      assert |path| <= |r|;
      assert r <= path ==> r == path;
      assert c2.nodes[r].Ids() == c2.nodes[q].deepest;
    }
  }

  // Storing a chain that was read from the tree.
  lemma StoredIdsFaithful(c: CState, c2: CState, path: Path, ids: seq<InodeId>, db: Db, objects: DirObjects)
    requires Faithful(c.nodes, db, objects) && StoredIds(c, c2, path, ids) && Chain(db, path) == Some(ids)
    ensures Faithful(c2.nodes, db, objects)
  {
    forall q | q in c2.nodes ensures Witnessed(c2.nodes, q) {
      hide TrueValues, Stored, Witnessed, Chain;
      if q <= path {
        StoredIdsWitness(c, c2, path, ids, db, objects, q);
      } else {
        StoredWitnessOffPath(c, c2, path, InodeIds(ids), ids, q);
      }
    }
    hide TrueValues, Witnessed, Stored;
    StoredTrueValues(c, c2, path, InodeIds(ids), ids, db, objects);
  }

  // Storing the object or link a chain that was read from the tree ends in.
  lemma StoredTerminalFaithful(c: CState, c2: CState, path: Path, parents: seq<InodeId>, t: Terminal,
                               db: Db, objects: DirObjects)
    requires Faithful(c.nodes, db, objects) && StoredTerminal(c, c2, path, parents, t)
    requires EndsIn(db, objects, path, t)
    ensures Faithful(c2.nodes, db, objects)
  {
    hide TrueValues, Witnessed, Stored, Best, EndsIn;
    StoredTrueValues(c, c2, path, TerminalValue(t), parents, db, objects);
    forall q | q in c2.nodes && !(q <= path) ensures Witnessed(c2.nodes, q) {
      StoredWitnessOffPath(c, c2, path, TerminalValue(t), parents, q);
    }
    forall q | q in c2.nodes ensures Witnessed(c2.nodes, q) {
      RecomputedWitness(c2.nodes, path, q);
    }
  }

  // The directories of path are ids[0], ids[1], ..., at least n of them.
  ghost predicate DirsOf(db: Db, path: Path, ids: seq<InodeId>, n: nat) {
    n <= |path| && n <= |ids| &&
    forall j :: 0 <= j < n ==> Chain(db, path[..j]).Some? && End(db, path[..j]) == ids[j]
  }

  lemma SamePrefix(p: Path, q: Path, i: nat)
    requires i < |p| && i < |q| && p[..i + 1] == q[..i + 1]
    ensures p[..i] == q[..i] && p[i] == q[i]
  {
    assert p[..i] == p[..i + 1][..i] && q[..i] == q[..i + 1][..i];
    assert p[i] == p[..i + 1][i] && q[i] == q[..i + 1][i];
  }

  // Entering the edges of one path leaves every other path's edges right: an edge belongs to one path.
  lemma {:induction false} PutEdgesIndexed(edges: map<Edge, Path>, db: Db, path: Path, ids: seq<InodeId>, n: nat,
                                           p: Path, i: nat)
    requires UniqueParents(db) && DirsOf(db, path, ids, n) && i < |p| && Chain(db, p[..i]).Some?
    requires Indexed(edges, db, p, i) || (i < n && p[..i + 1] == path[..i + 1])
    ensures Indexed(PutEdges(edges, path, ids, n), db, p, i)
    decreases n
  {
    hide Chain, UniqueParents;
    if i < n && p[..i + 1] == path[..i + 1] { SamePrefix(p, path, i); }
    if n > 0 {
      var dir := End(db, p[..i]);
      if dir == ids[n - 1] && p[i] == path[n - 1] {
        ChainUnique(db, p[..i], path[..n - 1]);
        assert p[..i + 1] == p[..i] + [p[i]] && path[..n] == path[..n - 1] + [path[n - 1]];
      } else {
        PutEdgesIndexed(edges, db, path, ids, n - 1, p, i);
      }
    }
  }

  lemma StoredCovered(c: CState, c2: CState, path: Path, value: CacheValue, ids: seq<InodeId>, db: Db)
    requires Covered(c, db) && Stored(c, c2, path, value, ids) && UniqueParents(db) && DirsOf(db, path, ids, |path|)
    ensures Covered(c2, db)
  {
    hide Chain, UniqueParents, PutEdges, Unshadowed;
    forall p | p in c2.nodes && c2.nodes[p].value.Some? ensures AllIndexed(c2.edges, db, p) {
      forall i: nat | i < |p| ensures Indexed(c2.edges, db, p, i) {
        if p == path {
          PutEdgesIndexed(c.edges, db, path, ids, |path|, p, i);
        } else {
          assert AllIndexed(c.edges, db, p);
          assert Indexed(c.edges, db, p, i);
          PutEdgesIndexed(c.edges, db, path, ids, |path|, p, i);
        }
      }
    }
  }

  lemma ChainDirs(db: Db, path: Path, n: nat, full: Path)
    requires n <= |full| && full[..n] == path && Chain(db, path).Some?
    ensures DirsOf(db, full, Chain(db, path).value, n)
    ensures n < |full| ==> DirsOf(db, full, Chain(db, path).value, n + 1)
  {
    forall j: nat | j <= n ensures Chain(db, full[..j]).Some? && End(db, full[..j]) == Chain(db, path).value[j] {
      ChainPrefix(db, path, j);
      assert path[..j] == full[..j];
    }
  }

  // ---- evicting ----

  // Nothing below the evicted path still depends on the edge that leads to it.
  ghost predicate SafeToEvict(nodes: Nodes, path: Path) {
    path == [] || forall p :: p in nodes && nodes[p].value.Some? ==> !Strictly(path, p)
  }

  lemma RemovedFaithful(nodes: Nodes, nodes2: Nodes, path: Path, db: Db, objects: DirObjects)
    requires Faithful(nodes, db, objects) && Removed(nodes, nodes2, path)
    ensures Faithful(nodes2, db, objects)
  {
    hide TrueValue, Witnessed, Best;
    assert TrueValues(nodes2, db, objects);
    forall q | q in nodes2 && !(q <= path) ensures Witnessed(nodes2, q) {
      assert Witnessed(nodes, q);
      forall r | r in nodes && q <= r ensures r in nodes2 && nodes2[r].Ids() == nodes[r].Ids() {
        assert !(r <= path);
      }
      WitnessKept(nodes, nodes2, path, q);
    }
    hide TrueValues;
    forall q | q in nodes2 ensures Witnessed(nodes2, q) {
      RecomputedWitness(nodes2, path, q);
    }
  }

  // Evicting keeps what is left faithful, but the index covers it exactly if the eviction was safe.
  lemma EvictedCovered(c: CState, c2: CState, oldest: nat, db: Db)
    requires Paired(c) && Covered(c, db) && Evicted(c, c2, oldest)
    ensures Covered(c2, db) <==> SafeToEvict(c.nodes, c.lru[oldest])
  {
    var path := c.lru[oldest];
    hide Chain, Best, Paired;
    if SafeToEvict(c.nodes, path) {
      forall p | p in c2.nodes && c2.nodes[p].value.Some? ensures AllIndexed(c2.edges, db, p) {
        EvictedEntryCovered(c, c2, oldest, db, p);
      }
    } else {
      var p :| p in c.nodes && c.nodes[p].value.Some? && Strictly(path, p);
      assert c2.nodes[p].value.Some?;
      EvictedRowGone(c, c2, oldest, db, p);
    }
  }

  lemma EvictedEntryCovered(c: CState, c2: CState, oldest: nat, db: Db, p: Path)
    requires Covered(c, db) && Evicted(c, c2, oldest) && SafeToEvict(c.nodes, c.lru[oldest])
    requires p in c2.nodes && c2.nodes[p].value.Some?
    ensures AllIndexed(c2.edges, db, p)
  {
    hide Chain, Best;
    assert AllIndexed(c.edges, db, p);
    forall i: nat | i < |p| ensures Indexed(c2.edges, db, p, i) {
      assert Indexed(c.edges, db, p, i);
      assert p[..i + 1] <= p;
    }
  }

  lemma EvictedRowGone(c: CState, c2: CState, oldest: nat, db: Db, p: Path)
    requires Evicted(c, c2, oldest) && c.lru[oldest] != [] && Strictly(c.lru[oldest], p)
    ensures !AllIndexed(c2.edges, db, p)
  {
    hide Chain, Best;
    var i := |c.lru[oldest]| - 1;
    assert p[..i + 1] == c.lru[oldest];
    assert !Indexed(c2.edges, db, p, i);
  }

  // ---- invalidating ----

  lemma InvalidatedFaithful(c: CState, c2: CState, prefix: Path, db: Db, objects: DirObjects)
    requires Faithful(c.nodes, db, objects) && Invalidated(c, c2, prefix)
    ensures Faithful(c2.nodes, db, objects)
  {
    if prefix != [] && prefix[..|prefix| - 1] in c.nodes {
      var parent := prefix[..|prefix| - 1];
      hide TrueValue, Witnessed, Best;
      assert TrueValues(c2.nodes, db, objects);
      InvalidatedNodes(c, c2, prefix);
      forall q | q in c2.nodes && !(q <= parent) ensures Witnessed(c2.nodes, q) {
        assert Witnessed(c.nodes, q);
        forall r | r in c.nodes && q <= r ensures r in c2.nodes && c2.nodes[r].Ids() == c.nodes[r].Ids() {
          if prefix <= r { PrefixesOfOne(q, prefix, r); }
        }
        WitnessKept(c.nodes, c2.nodes, parent, q);
      }
      hide TrueValues, Invalidated;
      forall q | q in c2.nodes ensures Witnessed(c2.nodes, q) {
        RecomputedWitness(c2.nodes, parent, q);
      }
    }
  }

  // Of two prefixes of one path, one is a prefix of the other.
  lemma PrefixesOfOne(p: Path, q: Path, r: Path)
    requires p <= r && q <= r && q != []
    ensures q <= p || p <= q[..|q| - 1]
  {
    if |p| < |q| {
      assert p == r[..|p|];
      assert q[..|q| - 1] == r[..|q| - 1];
    }
  }

  lemma InvalidatedCovered(c: CState, c2: CState, prefix: Path, db: Db)
    requires Covered(c, db) && Invalidated(c, c2, prefix)
    ensures Covered(c2, db)
  {
    hide Chain, Best;
    forall p | p in c2.nodes && c2.nodes[p].value.Some? ensures AllIndexed(c2.edges, db, p) {
      assert AllIndexed(c.edges, db, p);
      forall i: nat | i < |p| ensures Indexed(c2.edges, db, p, i) {
        assert Indexed(c.edges, db, p, i);
        assert prefix <= p[..i + 1] ==> prefix <= p;
      }
    }
  }

  // invalidate_by_edge
  ghost predicate EdgeInvalidated(c: CState, c2: CState, e: Edge) {
    if e in c.edges then Invalidated(c, c2, c.edges[e]) else c2 == c
  }

  // Entries are only dropped.
  ghost predicate Fewer(nodes: Nodes, nodes2: Nodes) {
    forall p :: p in nodes2 && nodes2[p].value.Some? ==> p in nodes && nodes2[p].value == nodes[p].value
  }

  lemma InvalidatedFewer(c: CState, c2: CState, prefix: Path)
    requires Invalidated(c, c2, prefix)
    ensures Fewer(c.nodes, c2.nodes)
  {
    hide Best;
  }

  // While the index covers the cache, invalidating an edge drops every entry that depends on it.
  lemma InvalidatedUnused(c: CState, c2: CState, e: Edge, db: Db)
    requires Trie(c.nodes) && Covered(c, db) && EdgeInvalidated(c, c2, e)
    ensures Unused(c2.nodes, db, e)
  {
    hide Chain, Best;
    forall p | p in c2.nodes && c2.nodes[p].value.Some? ensures !Uses(db, p, e) {
      if Uses(db, p, e) {
        var i :| 0 <= i < |p| && Chain(db, p[..i]).Some? && e == (End(db, p[..i]), p[i]);
        InvalidatedEntryUnused(c, c2, e, db, p, i);
      }
    }
  }

  lemma InvalidatedEntryUnused(c: CState, c2: CState, e: Edge, db: Db, p: Path, i: nat)
    requires Trie(c.nodes) && Covered(c, db) && EdgeInvalidated(c, c2, e)
    requires i < |p| && Chain(db, p[..i]).Some? && e == (End(db, p[..i]), p[i])
    ensures !(p in c2.nodes && c2.nodes[p].value.Some?)
  {
    hide Chain, Best, Trie;
    if p in c.nodes && c.nodes[p].value.Some? {
      assert AllIndexed(c.edges, db, p);
      assert Indexed(c.edges, db, p, i);
      assert p[..i + 1][..i] == p[..i];
      InTrie(c.nodes, p, i);
    }
    if e in c.edges { InvalidatedFewer(c, c2, c.edges[e]); }
  }

  lemma InTrie(nodes: Nodes, p: Path, i: nat)
    requires Trie(nodes) && p in nodes && i <= |p|
    ensures p[..i] in nodes
  {
    PrefixInTrie(nodes, p, p[..i]);
  }

  // ---- changing the tree ----

  // The two trees differ only in the given edges, and directories keep their base object.
  ghost predicate DiffersIn(db: Db, db2: Db, edges: set<Edge>) {
    (forall e :: e !in edges ==> TargetAt(db, e) == TargetAt(db2, e)) &&
    (forall n :: n in db.nodes && db.nodes[n].Kind() == Dir ==>
      n in db2.nodes && db2.nodes[n].Kind() == Dir && db2.nodes[n].baseObj == db.nodes[n].baseObj)
  }

  ghost predicate NoneUsed(nodes: Nodes, db: Db, edges: set<Edge>) {
    forall e :: e in edges ==> Unused(nodes, db, e)
  }

  lemma {:induction false} ChainKept(db: Db, db2: Db, edges: set<Edge>, path: Path, k: nat)
    requires DiffersIn(db, db2, edges) && k <= |path| && Chain(db, path[..k]).Some?
    requires forall e :: e in edges ==> !Uses(db, path, e)
    ensures Chain(db2, path[..k]) == Chain(db, path[..k])
    decreases k
  {
    if k > 0 {
      assert path[..k][..k - 1] == path[..k - 1];
      ChainLast(db, path[..k]);
      ChainKept(db, db2, edges, path, k - 1);
      var e := (End(db, path[..k - 1]), path[k - 1]);
      assert Uses(db, path, e);
      assert TargetAt(db, e) == TargetAt(db2, e);
    }
  }

  lemma ValueKept(db: Db, db2: Db, objects: DirObjects, edges: set<Edge>, path: Path, value: CacheValue)
    requires DiffersIn(db, db2, edges) && TrueValue(db, objects, path, value)
    requires forall e :: e in edges ==> !Uses(db, path, e)
    ensures TrueValue(db2, objects, path, value)
  {
    hide Chain;
    assert path[..|path|] == path;
    if value.InodeIds? {
      ChainKept(db, db2, edges, path, |path|);
    } else {
      var k := |path| - 1;
      ChainKept(db, db2, edges, path, k);
      var e := (End(db, path[..k]), path[k]);
      assert Uses(db, path, e);
      assert TargetAt(db, e) == TargetAt(db2, e);
    }
  }

  // Entries that depend on no changed edge stay faithful and covered.
  lemma ChangeKeepsAgreement(c: CState, db: Db, db2: Db, objects: DirObjects, edges: set<Edge>)
    requires Faithful(c.nodes, db, objects) && Covered(c, db)
    requires DiffersIn(db, db2, edges) && NoneUsed(c.nodes, db, edges)
    ensures Faithful(c.nodes, db2, objects) && Covered(c, db2)
  {
    hide Chain, DiffersIn, AllWitnessed, TrueValue, Uses;
    forall p | p in c.nodes && c.nodes[p].value.Some?
      ensures TrueValue(db2, objects, p, c.nodes[p].value.value) && AllIndexed(c.edges, db2, p)
    {
      assert forall e :: e in edges ==> Unused(c.nodes, db, e);
      ValueKept(db, db2, objects, edges, p, c.nodes[p].value.value);
      IndexKept(c.edges, db, db2, objects, edges, p, c.nodes[p].value.value);
    }
  }

  lemma IndexKept(rows: map<Edge, Path>, db: Db, db2: Db, objects: DirObjects, edges: set<Edge>, p: Path, v: CacheValue)
    requires DiffersIn(db, db2, edges) && TrueValue(db, objects, p, v) && AllIndexed(rows, db, p)
    requires forall e :: e in edges ==> !Uses(db, p, e)
    ensures AllIndexed(rows, db2, p)
  {
    hide Chain, DiffersIn, TrueValue, Uses;
    forall i: nat | i < |p| ensures Indexed(rows, db2, p, i) {
      assert Indexed(rows, db, p, i);
      ChainKept(db, db2, edges, p, i);
    }
  }
}
