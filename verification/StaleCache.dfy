// When an eviction is safe.  The edge index keeps one row per path, so evicting a directory's entry drops the
// row that the entries below it still need; exactly then some later change leaves the cache stale.
module StaleCache {
  import opened Bytes
  import opened FsTypes
  import opened Resolver
  import opened NamespaceState
  import opened MoveTree
  import opened TouchedEdges
  import opened CacheState
  import opened CacheCoherence
  import opened SortedKeys
  import opened PathCache
  import opened CachedResolve

  // Whatever one edge is changed to, invalidating it leaves only true contents.
  ghost predicate StaysTrue(c: CState, db: Db, objects: DirObjects) {
    forall e, db2, c2 :: UniqueParents(db2) && DiffersIn(db, db2, {e}) && EdgeInvalidated(c, c2, e) ==>
      Faithful(c2.nodes, db2, objects)
  }

  // An eviction is safe exactly if no change of one edge, once that edge is invalidated, can leave stale contents.
  lemma SafeEvictionExactly(c: CState, c2: CState, oldest: nat, db: Db, objects: DirObjects)
    requires WellFormed(c) && Faithful(c.nodes, db, objects) && Covered(c, db) && Rooted(db) && Evicted(c, c2, oldest)
    ensures SafeToEvict(c.nodes, c.lru[oldest]) <==> StaysTrue(c2, db, objects)
  {
    assert oldest in c.lru;
    hide WellFormed, Faithful, Covered, Rooted, Evicted, SafeToEvict, UniqueParents, DiffersIn, EdgeInvalidated;
    if SafeToEvict(c.nodes, c.lru[oldest]) {
      forall e, db2, c3 | UniqueParents(db2) && DiffersIn(db, db2, {e}) && EdgeInvalidated(c2, c3, e)
        ensures Faithful(c3.nodes, db2, objects)
      {
        SafeEvictionAgrees(c, c2, oldest, db, objects);
        StaysFaithful(c2, c3, e, db, db2, objects);
      }
    } else {
      var op, p := UnsafeIsStale(c, c2, oldest, db, objects);
      RootedHasUniqueParents(After(db, op));
      assert !Faithful(c2.nodes, After(db, op), objects);
    }
  }

  lemma SafeEvictionAgrees(c: CState, c2: CState, oldest: nat, db: Db, objects: DirObjects)
    requires WellFormed(c) && Faithful(c.nodes, db, objects) && Covered(c, db) && Evicted(c, c2, oldest)
    requires SafeToEvict(c.nodes, c.lru[oldest])
    ensures WellFormed(c2) && Agrees(c2, false, db, objects)
  {
    Bookkeeping(c);
    EvictedNodes(c, c2, oldest);
    hide WellFormed, Faithful, Covered, Evicted, SafeToEvict, Removed, Paired, Trie;
    EvictedWellFormed(c, c2, oldest);
    EvictedCovered(c, c2, oldest, db);
    RemovedFaithful(c.nodes, c2.nodes, c.lru[oldest], db, objects);
  }

  lemma StaysFaithful(c: CState, c2: CState, e: Edge, db: Db, db2: Db, objects: DirObjects)
    requires WellFormed(c) && Agrees(c, false, db, objects) && EdgeInvalidated(c, c2, e) && DiffersIn(db, db2, {e})
    ensures Faithful(c2.nodes, db2, objects)
  {
    hide WellFormed, Agrees, DiffersIn, EdgeInvalidated, NoneUsed;
    NoneUsedYet(c.nodes, db);
    InvalidatedAgrees(c, c2, e, db, objects, []);
    assert (set k | k in [] + [e]) == {e};
    ChangedAgrees(c2, db, db2, objects, {e});
    AgreesFaithful(c2, false, db2, objects);
  }

  lemma EvictedNodes(c: CState, c2: CState, oldest: nat)
    requires Evicted(c, c2, oldest)
    ensures oldest in c.lru && Removed(c.nodes, c2.nodes, c.lru[oldest])
  {
    hide Removed;
  }

  // The dentry of the evicted path is deleted by a tombstone.  Its row is gone, so invalidating the edge finds
  // nothing, and an entry below is still there although a resolve without a cache finds nothing at its path.
  lemma UnsafeIsStale(c: CState, c2: CState, oldest: nat, db: Db, objects: DirObjects) returns (op: NsOp, p: Path)
    requires WellFormed(c) && Faithful(c.nodes, db, objects) && Covered(c, db) && Rooted(db) && Evicted(c, c2, oldest)
    requires !SafeToEvict(c.nodes, c.lru[oldest])
    ensures op.ReplaceOp? && op.target == Tombstone && Check(db, op).None? && Rooted(After(db, op))
    ensures Tree(db) ==> Tree(After(db, op))
    ensures DiffersIn(db, After(db, op), {EdgeOf(op)}) && EdgeInvalidated(c2, c2, EdgeOf(op))
    ensures p in c2.nodes && c2.nodes[p].value.Some? && forall budget :: Resolve(After(db, op), objects, p, budget) == Nothing
    ensures !Faithful(c2.nodes, After(db, op), objects)
  {
    p := EntryBelow(c, c2, oldest, db, objects);
    var path, value := c.lru[oldest], c2.nodes[p].value.value;
    hide WellFormed, Faithful, Covered, Evicted, SafeToEvict, Chain, Resolve, Rooted, Tree, TrueValue, After, Check, DiffersIn,
         EdgeInvalidated, UniqueParents;
    var i := |path| - 1;
    StepsInode(db, objects, p, value, i);
    var e := (End(db, p[..i]), p[i]);
    op := Bury(db, e);
    BuryFacts(db, e);
    RowOf(c.edges, db, p, i, path);
    RowIsGone(c, c2, oldest, e);
    RootedHasUniqueParents(db);
    Buried(db, After(db, op), objects, p, i);
    BuriedIsFalse(db, After(db, op), objects, p, i, value);
    EntryIsFalse(c2.nodes, After(db, op), objects, p);
  }

  // After an unsafe eviction an entry below the evicted path is still there.
  lemma EntryBelow(c: CState, c2: CState, oldest: nat, db: Db, objects: DirObjects) returns (p: Path)
    requires Faithful(c.nodes, db, objects) && Covered(c, db) && Evicted(c, c2, oldest)
    requires !SafeToEvict(c.nodes, c.lru[oldest])
    ensures c.lru[oldest] != [] && Strictly(c.lru[oldest], p) && p in c2.nodes && c2.nodes[p].value.Some?
    ensures TrueValue(db, objects, p, c2.nodes[p].value.value) && AllIndexed(c.edges, db, p)
  {
    var path := c.lru[oldest];
    p :| p in c.nodes && c.nodes[p].value.Some? && Strictly(path, p);
    hide Best, Chain, TrueValue;
    assert c2.nodes[p] == c.nodes[p];
  }

  lemma RowOf(edges: map<Edge, Path>, db: Db, p: Path, i: nat, path: Path)
    requires AllIndexed(edges, db, p) && path <= p && path != [] && i == |path| - 1
    ensures Chain(db, p[..i]).Some? && (End(db, p[..i]), p[i]) in edges && edges[(End(db, p[..i]), p[i])] == path
  {
    assert Indexed(edges, db, p, i);
    assert p[..i + 1] == path;
  }

  // Every step of an entry's path but the last leads to an inode.
  lemma StepsInode(db: Db, objects: DirObjects, p: Path, value: CacheValue, i: nat)
    requires TrueValue(db, objects, p, value) && i + 1 < |p|
    ensures Chain(db, p[..i]).Some? && (End(db, p[..i]), p[i]) in db.dentries
    ensures db.dentries[(End(db, p[..i]), p[i])].target.Inode?
  {
    DirsReached(db, objects, p, value, i);
    DirsReached(db, objects, p, value, i + 1);
    assert p[..i + 1][..i] == p[..i];
    ChainLast(db, p[..i + 1]);
  }

  lemma RowIsGone(c: CState, c2: CState, oldest: nat, e: Edge)
    requires Evicted(c, c2, oldest) && e in c.edges && c.edges[e] == c.lru[oldest] && c.lru[oldest] != []
    ensures e !in c2.edges && EdgeInvalidated(c2, c2, e)
  {
    hide Removed;
  }

  lemma EntryIsFalse(nodes: Nodes, db: Db, objects: DirObjects, p: Path)
    requires p in nodes && nodes[p].value.Some? && !TrueValue(db, objects, p, nodes[p].value.value)
    ensures !Faithful(nodes, db, objects)
  {
    hide TrueValue, Witnessed;
  }

  // ---- putting a tombstone on an edge ----

  function Bury(db: Db, e: Edge): NsOp
    requires e in db.dentries
  {
    ReplaceOp(e.0, e.1, db.dentries[e].target, Tombstone, if e.0 in db.nodes then db.nodes[e.0].Rev() else 0)
  }

  lemma BuryFacts(db: Db, e: Edge)
    requires Rooted(db) && e in db.dentries && db.dentries[e].target.Inode?
    ensures var op := Bury(db, e);
      EdgeOf(op) == e && Check(db, op).None? && Rooted(After(db, op)) && (Tree(db) ==> Tree(After(db, op))) &&
      DiffersIn(db, After(db, op), {e}) &&
      After(db, op).dentries == db.dentries[e := Dentry(db.dentries[e].id, Tombstone)]
  {
    var op := Bury(db, e);
    BuryAccepted(db, e);
    AfterKeepsBackPointers(db, op);
    OpDiffersIn(db, op);
    BuryRows(db, e);
    hide BackPointers, Check, After, DiffersIn, Acyclic;
    if Acyclic(db) { FewerKeepsAcyclic(db, After(db, op)); }
  }

  lemma BuryAccepted(db: Db, e: Edge)
    requires BackPointers(db) && e in db.dentries && db.dentries[e].target.Inode?
    ensures Check(db, Bury(db, e)).None? && Changes(db, Bury(db, e))
  {
  }

  lemma BuryRows(db: Db, e: Edge)
    requires BackPointers(db) && e in db.dentries && db.dentries[e].target.Inode?
    requires ROOT in db.nodes && db.nodes[ROOT].refBy.None?
    ensures var db2 := After(db, Bury(db, e));
      db2.dentries == db.dentries[e := Dentry(db.dentries[e].id, Tombstone)] && ROOT in db2.nodes && db2.nodes[ROOT].refBy.None?
  {
    BuryAccepted(db, e);
    hide BackPointers;
  }

  // e is the edge the path takes after i steps, and now holds a tombstone.
  ghost predicate BuriedAt(db: Db, db2: Db, p: Path, i: nat) {
    i < |p| && Chain(db, p[..i]).Some? &&
    var e := (End(db, p[..i]), p[i]);
    DiffersIn(db, db2, {e}) && TargetAt(db2, e) == Some(Tombstone)
  }

  // The chain to the directory is the same, and there the path ends.
  lemma Buried(db: Db, db2: Db, objects: DirObjects, p: Path, i: nat)
    requires UniqueParents(db) && BuriedAt(db, db2, p, i)
    ensures Chain(db2, p[..i]) == Chain(db, p[..i]) && forall budget :: Resolve(db2, objects, p, budget) == Nothing
  {
    var e := (End(db, p[..i]), p[i]);
    hide UniqueParents, DiffersIn, Chain;
    NotAbove(db, p[..i], p[i]);
    assert p[..i][..i] == p[..i];
    ChainKept(db, db2, {e}, p[..i], i);
    WalkFromChain(db2, objects, p, i);
    assert WalkFrom(db2, objects, ROOT, p, 0) == Missing;
  }

  // No edge of a path leaves the directory the path ends in.
  lemma NotAbove(db: Db, q: Path, name: Name)
    requires UniqueParents(db) && Chain(db, q).Some?
    ensures !Uses(db, q, (End(db, q), name))
  {
    hide Chain, UniqueParents;
    forall j | 0 <= j < |q| && Chain(db, q[..j]).Some? ensures End(db, q[..j]) != End(db, q) {
      if End(db, q[..j]) == End(db, q) { ChainUnique(db, q[..j], q); }
    }
  }

  lemma BuriedIsFalse(db: Db, db2: Db, objects: DirObjects, p: Path, i: nat, value: CacheValue)
    requires UniqueParents(db) && BuriedAt(db, db2, p, i) && i + 1 < |p|
    ensures !TrueValue(db2, objects, p, value)
  {
    Buried(db, db2, objects, p, i);
    hide UniqueParents, DiffersIn, Chain, TrueValue, Resolve;
    if TrueValue(db2, objects, p, value) { StepsInode(db2, objects, p, value, i); }
  }

  // ---- it happens: resolves of a proper tree through an empty cache of any size ----

  // The names of other links under the root.
  function Other(k: nat): Name { seq(k + 2, _ => 's') }

  // The root has the directory /a and n links; /a has the link l.
  function Rows(n: nat): map<Edge, Dentry> {
    if n == 0 then map[(1, "a") := Dentry(1, Inode(2)), (2, "l") := Dentry(2, SymLink("/x"))]
    else Rows(n - 1)[(1, Other(n - 1)) := Dentry(n + 2, SymLink("/y"))]
  }

  function Wide(n: nat): Db {
    Db(map[1 := NodeRecord(None, false, None, DirNormal, Some(0)), 2 := NodeRecord(Some(1), false, None, DirNormal, Some(0))],
       Rows(n), n + 2)
  }

  const AL: Path := ["a", "l"]
  const A: Path := ["a"]
  const AEDGE: Edge := (1, "a")
  const LINK := TerminalValue(TermLink("/x"))

  ghost predicate RowsFacts(rows: map<Edge, Dentry>, n: nat) {
    (forall e :: e in rows ==> e.0 in {1, 2} && |e.1| <= n + 1 && rows[e].id <= n + 2) &&
    (forall e :: e in rows && rows[e].target.Inode? ==> e == AEDGE) &&
    (forall e, f :: e in rows && f in rows && rows[e].id == rows[f].id ==> e == f) &&
    AEDGE in rows && rows[AEDGE] == Dentry(1, Inode(2)) &&
    (2, "l") in rows && rows[(2, "l")].target == SymLink("/x") &&
    (forall k :: 0 <= k < n ==> (1, Other(k)) in rows && rows[(1, Other(k))].target == SymLink("/y"))
  }

  lemma {:induction false} RowsAre(n: nat)
    ensures RowsFacts(Rows(n), n)
  {
    hide RowsFacts, Other;
    if n == 0 {
      RowsStart();
    } else {
      RowsAre(n - 1);
      RowsGrow(Rows(n - 1), n - 1);
      assert Rows(n) == Rows(n - 1)[(1, Other(n - 1)) := Dentry(n + 2, SymLink("/y"))];
    }
  }

  lemma RowsStart()
    ensures RowsFacts(Rows(0), 0)
  {
    assert "a" != "l" by { assert "a"[0] != "l"[0]; }
  }

  lemma RowsGrow(rows: map<Edge, Dentry>, n: nat)
    requires RowsFacts(rows, n)
    ensures RowsFacts(rows[(1, Other(n)) := Dentry(n + 3, SymLink("/y"))], n + 1)
  {
    var rows2 := rows[(1, Other(n)) := Dentry(n + 3, SymLink("/y"))];
    assert |Other(n)| == n + 2 && (1, Other(n)) !in rows && Other(n) != "a" && Other(n) != "l";
    forall k: nat | k < n + 1 ensures (1, Other(k)) in rows2 && rows2[(1, Other(k))].target == SymLink("/y") {
      assert k < n ==> |Other(k)| != |Other(n)|;
    }
    hide Other;
  }

  lemma {:induction false} WideIsShallow(n: nat, x: InodeId, p: Path)
    requires p != []
    ensures Descend(Wide(n), x, p).Some? ==> x == 1 && Descend(Wide(n), x, p) == Some(2)
    decreases |p|
  {
    var front, name := p[..|p| - 1], p[|p| - 1];
    if front != [] { WideIsShallow(n, x, front); }
    if Descend(Wide(n), x, front).Some? { OnlyChild(n, (Descend(Wide(n), x, front).value, name)); }
    hide Wide;
  }

  lemma OnlyChild(n: nat, e: Edge)
    ensures ChildInode(Wide(n), e).Some? ==> e == AEDGE && ChildInode(Wide(n), e) == Some(2)
  {
    RowsAre(n);
    hide Rows;
  }

  lemma WideIsTree(n: nat)
    ensures Tree(Wide(n))
  {
    WidePoints(n);
    hide BackPointers, Descend;
    forall x: InodeId, p | p != [] ensures Descend(Wide(n), x, p) != Some(x) {
      WideIsShallow(n, x, p);
    }
  }

  lemma WidePoints(n: nat)
    ensures BackPointers(Wide(n))
  {
    RowsAre(n);
    hide Rows;
    assert Points(Wide(n), AEDGE, 2, 1);
  }

  lemma Apart(k: nat)
    ensures A != AL && [Other(k)] != A && [Other(k)] != AL && Other(k) != "a"
    ensures !(AL <= A) && !(AL <= [Other(k)]) && !(A <= [Other(k)]) && !([Other(k)] <= A) && !([Other(k)] <= AL) && A <= AL
    ensures A[..1] == A && AL[..1] == A && AL[..2] == AL && [Other(k)][..1] == [Other(k)]
  {
    assert |Other(k)| > 1 && |"a"| == 1;
    assert [Other(k)][0] == Other(k) && A[0] == "a" && AL[0] == "a";
  }

  // Where the three kinds of paths lead without a cache.
  lemma WideWalks(n: nat, k: nat)
    requires k < n
    ensures WalkFrom(Wide(n), map[], ROOT, AL, 0) == AtLink("/x", 1)
    ensures WalkFrom(Wide(n), map[], ROOT, A, 0) == AtInode(2)
    ensures WalkFrom(Wide(n), map[], ROOT, [Other(k)], 0) == AtLink("/y", 0)
    ensures Chain(Wide(n), A) == Some([1, 2])
  {
    RowsAre(n);
    hide Rows;
    assert WalkFrom(Wide(n), map[], 2, AL, 1) == AtLink("/x", 1);
    assert WalkFrom(Wide(n), map[], 2, A, 1) == AtInode(2);
    WideChain(n);
  }

  lemma WideChain(n: nat)
    ensures Chain(Wide(n), []) == Some([ROOT]) && Chain(Wide(n), A) == Some([1, 2])
  {
    RowsAre(n);
    hide Rows;
    assert A[..0] == [] && A[..1] == A;
    ChainGrows(Wide(n), A, 0, [ROOT], 2);
    assert [ROOT] + [2] == [1, 2];
  }

  ghost predicate Entry(c: CState, p: Path, value: CacheValue) {
    p in c.nodes && c.nodes[p].value == Some(value)
  }

  // None of the other links from k on has a node.
  ghost predicate NoOthers(c: CState, k: nat) {
    forall j: nat :: k <= j ==> [Other(j)] !in c.nodes
  }

  // The link and the directory are cached, the directory's entry is the oldest, and k other links are cached.
  ghost predicate Filled(c: CState, k: nat) {
    Entry(c, AL, LINK) && Entry(c, A, InodeIds([1, 2])) && NoOthers(c, k) &&
    1 in c.lru && c.lru[1] == A && (forall e :: e in c.lru ==> 1 <= e && c.lru[e] != []) && |c.lru| == k + 2
  }

  // The link first: a store drops the entries above its path.
  lemma LinkStored(c: CState, ids: seq<InodeId>)
    requires StoredTerminal(Empty(0), c, AL, ids, TermLink("/x"))
    ensures Entry(c, AL, LINK) && !HasTerminal(c.nodes, A) && NoOthers(c, 0) && c.lru == map[0 := AL] && c.next == 1
    ensures forall p :: p in c.nodes ==> c.nodes[p].Ids().None?
  {
    hide PutEdges, Best;
    Apart(0);
    forall j: nat ensures [Other(j)] !in c.nodes {
      Apart(j);
    }
    assert Strictly(A, AL);
  }

  lemma DirStored(c: CState, c2: CState, ids: seq<InodeId>)
    requires Entry(c, AL, LINK) && NoOthers(c, 0) && c.lru == map[0 := AL] && c.next == 1
    requires StoredIds(c, c2, A, ids)
    ensures Entry(c2, AL, LINK) && Entry(c2, A, InodeIds(ids)) && NoOthers(c2, 0)
    ensures c2.lru == map[0 := AL, 1 := A] && c2.next == 2
  {
    hide Longer, PutEdges;
    Apart(0);
    forall j: nat ensures [Other(j)] !in c2.nodes {
      Apart(j);
    }
    assert Unshadowed(c.lru, A) == c.lru;
  }

  lemma LinkRefreshed(c: CState, c2: CState)
    requires Entry(c, AL, LINK) && Entry(c, A, InodeIds([1, 2])) && NoOthers(c, 0)
    requires Paired(c) && c.lru == map[0 := AL, 1 := A] && c.next == 2 && Refreshed(c, c2, AL)
    ensures Filled(c2, 0)
  {
    Apart(0);
    assert c.nodes[AL].entryId == Some(0);
    assert c.lru - {0} == map[1 := A];
  }

  // One more link, while there is room.
  lemma OtherAdded(c: CState, c2: CState, k: nat, ids: seq<InodeId>)
    requires Filled(c, k) && Paired(c) && StoredTerminal(c, c2, [Other(k)], ids, TermLink("/y"))
    ensures Filled(c2, k + 1)
  {
    hide PutEdges, Best, Unshadowed;
    Apart(k);
    KeptInLru(c, [Other(k)]);
    AddedSize(c.lru, c.next, [Other(k)]);
    hide Paired;
    forall j: nat | k + 1 <= j ensures [Other(j)] !in c2.nodes {
      OthersApart(j, k);
    }
  }

  lemma OthersApart(j: nat, k: nat)
    requires j != k
    ensures !([Other(j)] <= [Other(k)])
  {
    assert |Other(j)| != |Other(k)|;
    assert [Other(j)][0] == Other(j) && [Other(k)][0] == Other(k);
  }

  lemma KeptInLru(c: CState, p: Path)
    requires Paired(c) && |p| == 1 && p !in c.nodes && forall e :: e in c.lru ==> c.lru[e] != []
    ensures Unshadowed(c.lru, p) == c.lru && c.next !in c.lru
  {
    forall e | e in c.lru ensures !(c.lru[e] <= p) {
      OnePrefix(c.lru[e], p);
    }
  }

  lemma OnePrefix(q: Path, p: Path)
    requires q != [] && |p| == 1
    ensures q <= p ==> q == p
  {
  }

  // The last one takes the place of the directory, and the row of its edge goes.
  lemma DirReplaced(c: CState, mid: CState, c2: CState, k: nat, ids: seq<InodeId>)
    requires Filled(c, k) && c.count == |c.lru| && AEDGE in c.edges && c.edges[AEDGE] == A
    requires MadeRoom(c, mid, [Other(k)], k + 2) && StoredTerminal(mid, c2, [Other(k)], ids, TermLink("/y"))
    ensures Entry(c2, AL, LINK) && !HasTerminal(c2.nodes, A) && AEDGE !in c2.edges
  {
    assert MinOf(c.lru.Keys) == 1;
    assert c.lru.Keys != {};
    hide Evicted, StoredTerminal;
    assert Evicted(c, mid, 1);
    hide MadeRoom, Filled;
    RowDropped(c, mid);
    OtherStored(mid, c2, k, ids);
  }

  lemma RowDropped(c: CState, mid: CState)
    requires Entry(c, AL, LINK) && A in c.nodes && Evicted(c, mid, 1) && c.lru[1] == A
    requires AEDGE in c.edges && c.edges[AEDGE] == A
    ensures Entry(mid, AL, LINK) && !HasTerminal(mid.nodes, A) && AEDGE !in mid.edges
  {
    hide Best;
    Apart(0);
  }

  lemma OtherStored(mid: CState, c: CState, k: nat, ids: seq<InodeId>)
    requires Entry(mid, AL, LINK) && !HasTerminal(mid.nodes, A) && AEDGE !in mid.edges
    requires StoredTerminal(mid, c, [Other(k)], ids, TermLink("/y"))
    ensures Entry(c, AL, LINK) && !HasTerminal(c.nodes, A) && AEDGE !in c.edges
  {
    hide Best, Unshadowed;
    Apart(k);
    assert PutEdges(mid.edges, [Other(k)], ids, 0) == mid.edges;
    assert PutEdges(mid.edges, [Other(k)], ids, 1) == mid.edges[(ids[0], Other(k)) := [Other(k)]];
  }

  // What a round on such a path without a cached terminal does.
  lemma LinkRound(db: Db, c: CState, c2: CState, path: Path, i: nat, link: string, t: RoundTrace, answer: Answer, maxEntries: nat)
    requires OneRound(db, c, c2, path, t, answer, maxEntries) && t.w == AtLink(link, i)
    requires path != [] && (forall k :: 0 < k <= |path| ==> !HasTerminal(c.nodes, path[..k])) && IdsFor(c.nodes, path).None?
    ensures StoresTerminal(c, c2, path, i, TermLink(link), t, maxEntries)
  {
    hide Refreshed, StoresTerminal, HasTerminal, IdsFor;
  }

  // The first resolve stores the link.
  lemma FirstRound(db: Db, c2: CState, t: RoundTrace, answer: Answer, maxEntries: nat)
    requires OneRound(db, Empty(0), c2, AL, t, answer, maxEntries) && t.w == AtLink("/x", 1)
    ensures Entry(c2, AL, LINK) && !HasTerminal(c2.nodes, A) && NoOthers(c2, 0) && c2.lru == map[0 := AL] && c2.next == 1
    ensures forall p :: p in c2.nodes ==> c2.nodes[p].Ids().None?
  {
    Apart(0);
    assert forall p: Path :: p != [] ==> p !in Empty(0).nodes;
    LinkRound(db, Empty(0), c2, AL, 1, "/x", t, answer, maxEntries);
    hide OneRound, StoredTerminal;
    LinkStored(c2, t.ids);
  }

  // The second stores the directory.
  lemma SecondRound(db: Db, c: CState, c2: CState, t: RoundTrace, answer: Answer, maxEntries: nat)
    requires Entry(c, AL, LINK) && !HasTerminal(c.nodes, A) && NoOthers(c, 0) && c.lru == map[0 := AL] && c.next == 1
    requires (forall p :: p in c.nodes ==> c.nodes[p].Ids().None?) && AllWitnessed(c.nodes) && c.count == |c.lru| && 2 <= maxEntries
    requires OneRound(db, c, c2, A, t, answer, maxEntries) && t.w == AtInode(2)
    ensures Entry(c2, AL, LINK) && Entry(c2, A, InodeIds(t.ids)) && NoOthers(c2, 0)
    ensures c2.lru == map[0 := AL, 1 := A] && c2.next == 2
  {
    Apart(0);
    NoIdsNoAnswer(c.nodes, A);
    hide StoredIds, IdsFor, Refreshed, HasTerminal, AllWitnessed, Evicted;
    assert MadeRoom(c, t.mid, A, maxEntries) && StoredIds(t.mid, c2, A, t.ids);
    DirStored(c, c2, t.ids);
  }

  lemma NoIdsNoAnswer(nodes: Nodes, path: Path)
    requires (forall p :: p in nodes ==> nodes[p].Ids().None?) && AllWitnessed(nodes)
    ensures IdsFor(nodes, path).None?
  {
    if path in nodes { assert Witnessed(nodes, path); }
  }

  // A resolve of the link answers it from the cache, whatever the tree is.
  lemma LinkIsHit(db: Db, c: CState, c2: CState, t: RoundTrace, answer: Answer, maxEntries: nat)
    requires Entry(c, AL, LINK) && !HasTerminal(c.nodes, A) && OneRound(db, c, c2, AL, t, answer, maxEntries)
    ensures t.hit.Some? && Refreshed(c, c2, AL) && answer == Resolved(LinkItem("/x"), [])
  {
    Apart(0);
    assert HasTerminal(c.nodes, AL[..2]) && !HasTerminal(c.nodes, AL[..1]);
    hide Refreshed, StoresOutcome, IdsFor;
  }

  // A resolve of one more link, which the cache does not have.
  lemma OtherRound(db: Db, c: CState, c2: CState, k: nat, t: RoundTrace, answer: Answer, maxEntries: nat)
    requires Filled(c, k) && OneRound(db, c, c2, [Other(k)], t, answer, maxEntries) && t.w == AtLink("/y", 0)
    ensures MadeRoom(c, t.mid, [Other(k)], maxEntries) && StoredTerminal(t.mid, c2, [Other(k)], t.ids, TermLink("/y"))
  {
    Apart(k);
    assert [Other(k)] !in c.nodes;
    hide Filled;
    LinkRound(db, c, c2, [Other(k)], 0, "/y", t, answer, maxEntries);
    hide OneRound, MadeRoom, StoredTerminal;
  }

  // In an agreeing cache the entry of the directory is its chain, and the index has its edge.
  lemma DirIsTrue(c: CState, db: Db, ids: seq<InodeId>)
    requires Agrees(c, false, db, map[]) && Entry(c, A, InodeIds(ids)) && Chain(db, A) == Some([1, 2]) && Chain(db, []) == Some([ROOT])
    ensures ids == [1, 2] && AEDGE in c.edges && c.edges[AEDGE] == A
  {
    hide AllWitnessed;
    assert TrueValue(db, map[], A, InodeIds(ids));
    assert AllIndexed(c.edges, db, A);
    hide Chain;
    assert Indexed(c.edges, db, A, 0);
    assert A[..0] == [] && A[..1] == A;
  }

  lemma RoomLeft(c: CState, mid: CState, path: Path, maxEntries: nat)
    requires MadeRoom(c, mid, path, maxEntries) && c.count < maxEntries
    ensures mid == c
  {
  }

  // The first three resolves: the link, its directory, and the link again.
  method Warm(cache: PathResolveCache, db: Db, n: nat)
    requires cache.Valid() && cache.S() == Empty(0) && !cache.orphaned && 2 <= cache.maxEntries
    requires 0 < n && db == Wide(n) && UniqueParents(db)
    modifies cache
    ensures cache.Valid() && !cache.orphaned && Agrees(cache.S(), false, db, map[]) && Filled(cache.S(), 0)
  {
    hide Agrees, OneRound, UniqueParents, Wide, WellFormed, Entry, NoOthers, Filled, HasTerminal, Refreshed, Resolve, WalkFrom,
         AllWitnessed, Chain;
    WideWalks(n, 0);
    WideChain(n);
    EmptyAgrees(0, db, map[]);
    var first, t1 := ResolvePath(cache, db, map[], AL, 0);
    ghost var c1 := cache.S();
    FirstRound(db, c1, t1, first, cache.maxEntries);
    Bookkeeping(c1);
    AgreesWitnessed(c1, db);
    var second, t2 := ResolvePath(cache, db, map[], A, 0);
    ghost var c2 := cache.S();
    SecondRound(db, c1, c2, t2, second, cache.maxEntries);
    DirIsTrue(c2, db, t2.ids);
    Bookkeeping(c2);
    NotTerminal(c2);
    assert |c1.lru| == 1 && |c2.lru| == 2;
    var third, t3 := ResolvePath(cache, db, map[], AL, 0);
    LinkIsHit(db, c2, cache.S(), t3, third, cache.maxEntries);
    LinkRefreshed(c2, cache.S());
  }

  lemma NotTerminal(c: CState)
    requires Entry(c, A, InodeIds([1, 2]))
    ensures !HasTerminal(c.nodes, A)
  {
  }

  lemma AgreesWitnessed(c: CState, db: Db)
    requires Agrees(c, false, db, map[])
    ensures AllWitnessed(c.nodes)
  {
    hide TrueValues, Covered;
  }

  // Fills a cache that is warm with one other link after the other, until it has as many entries as it may.
  method Fill(cache: PathResolveCache, db: Db, n: nat)
    requires 0 < n && n + 1 == cache.maxEntries && db == Wide(n) && UniqueParents(db)
    requires cache.Valid() && !cache.orphaned && Agrees(cache.S(), false, db, map[]) && Filled(cache.S(), 0)
    modifies cache
    ensures cache.Valid() && !cache.orphaned && Agrees(cache.S(), false, db, map[]) && Filled(cache.S(), n - 1)
  {
    hide Agrees, OneRound, UniqueParents, Wide, WellFormed, Filled, Resolve, WalkFrom, Chain, StoredTerminal, MadeRoom, Paired;
    for k := 0 to n - 1
      invariant cache.Valid() && !cache.orphaned && Agrees(cache.S(), false, db, map[]) && Filled(cache.S(), k)
    {
      ghost var c := cache.S();
      Bookkeeping(c);
      FilledCount(c, k);
      WideWalks(n, k);
      var answer, t := ResolvePath(cache, db, map[], [Other(k)], 0);
      OtherRound(db, c, cache.S(), k, t, answer, cache.maxEntries);
      RoomLeft(c, t.mid, [Other(k)], cache.maxEntries);
      OtherAdded(c, cache.S(), k, t.ids);
    }
  }

  lemma FilledCount(c: CState, k: nat)
    requires Filled(c, k)
    ensures |c.lru| == k + 2
  {
  }

  // One more resolve, and the directory's entry is gone, with the row of its edge.
  method Replace(cache: PathResolveCache, db: Db, n: nat)
    requires 0 < n && n + 1 == cache.maxEntries && db == Wide(n) && UniqueParents(db)
    requires cache.Valid() && !cache.orphaned && Agrees(cache.S(), false, db, map[]) && Filled(cache.S(), n - 1)
    modifies cache
    ensures cache.Valid() && Entry(cache.S(), AL, LINK) && !HasTerminal(cache.nodes, A) && AEDGE !in cache.edgeIndex
  {
    hide Agrees, OneRound, UniqueParents, Wide, WellFormed, Filled, Resolve, WalkFrom, Chain, StoredTerminal, MadeRoom, Paired,
         Trie, HasTerminal, Entry;
    WideWalks(n, n - 1);
    WideChain(n);
    ghost var c := cache.S();
    Bookkeeping(c);
    FilledDir(c, db, n - 1);
    var last, t := ResolvePath(cache, db, map[], [Other(n - 1)], 0);
    OtherRound(db, c, cache.S(), n - 1, t, last, cache.maxEntries);
    DirReplaced(c, t.mid, cache.S(), n - 1, t.ids);
  }

  // A cache of any size from two entries on, filled by resolves of a proper tree: a link, its directory, the link
  // again, then other links until the directory makes room for one.  When the directory's dentry is then buried,
  // the commit invalidates its edge, which finds no row, and a resolve still answers the link.
  method StaleAnswer(maxEntries: nat) returns (stale: Answer)
    requires 2 <= maxEntries
    ensures stale == Resolved(LinkItem("/x"), [])
    ensures var db := Wide(maxEntries - 1);
      AEDGE in db.dentries && Tree(db) && Check(db, Bury(db, AEDGE)).None? && Tree(After(db, Bury(db, AEDGE))) &&
      forall budget :: Resolve(After(db, Bury(db, AEDGE)), map[], AL, budget) == Nothing
  {
    var n := maxEntries - 1;
    var db := Wide(n);
    BuriedWide(n);
    hide *;
    var cache := new PathResolveCache(maxEntries);
    Warm(cache, db, n);
    Fill(cache, db, n);
    Replace(cache, db, n);
    var db2 := After(db, Bury(db, AEDGE));
    stale := CommitAndResolve(cache, db, db2);
  }

  // Invalidating an edge without a row does nothing, and the link is still answered.
  method CommitAndResolve(cache: PathResolveCache, ghost db: Db, db2: Db) returns (stale: Answer)
    requires cache.Valid() && Entry(cache.S(), AL, LINK) && !HasTerminal(cache.nodes, A) && AEDGE !in cache.edgeIndex
    requires UniqueParents(db2)
    modifies cache
    ensures stale == Resolved(LinkItem("/x"), [])
  {
    hide UniqueParents, WellFormed, Entry, HasTerminal, OneRound, Resolve, WalkFrom, DiffersIn, Agrees;
    ghost var c := cache.S();
    Commit(cache, db, db2, map[], [AEDGE]);
    ghost var t;
    stale, t := ResolvePath(cache, db2, map[], AL, 0);
    LinkIsHit(db2, c, cache.S(), t, stale, cache.maxEntries);
  }

  lemma FilledDir(c: CState, db: Db, k: nat)
    requires Filled(c, k) && Agrees(c, false, db, map[]) && Chain(db, A) == Some([1, 2]) && Chain(db, []) == Some([ROOT])
    ensures AEDGE in c.edges && c.edges[AEDGE] == A
  {
    hide Agrees, Chain;
    DirIsTrue(c, db, [1, 2]);
  }

  // The tree, before and after its directory is buried.
  lemma BuriedWide(n: nat)
    ensures var db := Wide(n);
      AEDGE in db.dentries && db.dentries[AEDGE].target == Inode(2) && Tree(db) && UniqueParents(db) &&
      Check(db, Bury(db, AEDGE)).None? && Tree(After(db, Bury(db, AEDGE))) && UniqueParents(After(db, Bury(db, AEDGE))) &&
      Chain(db, []) == Some([ROOT]) &&
      forall budget :: Resolve(After(db, Bury(db, AEDGE)), map[], AL, budget) == Nothing
  {
    var db := Wide(n);
    RowsAre(n);
    WideIsTree(n);
    WideChain(n);
    assert AEDGE in db.dentries && db.dentries[AEDGE].target == Inode(2);
    hide Wide, RowsFacts, Chain, After, Check, Bury, Rooted, DiffersIn, UniqueParents, Acyclic;
    BuryFacts(db, AEDGE);
    RootedHasUniqueParents(db);
    RootedHasUniqueParents(After(db, Bury(db, AEDGE)));
    assert AL[..0] == [];
    BuriedStart(db, After(db, Bury(db, AEDGE)));
    Buried(db, After(db, Bury(db, AEDGE)), map[], AL, 0);
  }

  lemma BuriedStart(db: Db, db2: Db)
    requires Chain(db, []) == Some([ROOT]) && DiffersIn(db, db2, {AEDGE}) && TargetAt(db2, AEDGE) == Some(Tombstone)
    ensures BuriedAt(db, db2, AL, 0)
  {
    assert AL[..0] == [];
    hide DiffersIn, Chain;
  }
}
