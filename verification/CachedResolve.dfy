// Resolving paths through the cache, and whole runs of resolves and tree changes: as long as no
// eviction dropped an index row that a deeper entry needed, every answer is the cacheless one.
module CachedResolve {
  import opened Bytes
  import opened FsTypes
  import opened SortedKeys
  import opened Resolver
  import opened CacheState
  import opened CacheCoherence
  import opened PathCache

  // The cache holds current chains, and unless an eviction orphaned a row, the index covers them.
  ghost predicate Agrees(c: CState, orphaned: bool, db: Db, objects: DirObjects) {
    Faithful(c.nodes, db, objects) && (!orphaned ==> Covered(c, db))
  }

  lemma RefreshedAgrees(c: CState, c2: CState, path: Path, orphaned: bool, db: Db, objects: DirObjects)
    requires Refreshed(c, c2, path) && Agrees(c, orphaned, db, objects)
    ensures Agrees(c2, orphaned, db, objects)
  {
    RefreshedNodes(c, c2, path);
    hide Refreshed, TrueValue, AllIndexed;
    SameValuesFaithful(c.nodes, c2.nodes, db, objects);
  }

  lemma SameValuesFaithful(nodes: Nodes, nodes2: Nodes, db: Db, objects: DirObjects)
    requires Faithful(nodes, db, objects) && nodes2.Keys == nodes.Keys
    requires forall p :: p in nodes ==> nodes2[p].value == nodes[p].value && nodes2[p].deepest == nodes[p].deepest
    ensures Faithful(nodes2, db, objects)
  {
    hide TrueValue;
    forall q | q in nodes2 ensures Witnessed(nodes2, q) {
      assert Witnessed(nodes, q);
      if nodes[q].deepest.Some? {
        var r :| r in nodes && q <= r && nodes[r].Ids() == nodes[q].deepest;
        assert nodes2[r].Ids() == nodes2[q].deepest;
      }
    }
  }

  lemma RoomAgrees(c: CState, mid: CState, path: Path, maxEntries: nat, orphaned: bool, db: Db, objects: DirObjects)
    requires Paired(c) && MadeRoom(c, mid, path, maxEntries) && Agrees(c, orphaned, db, objects)
    ensures Agrees(mid, orphaned || RoomOrphans(c, path, maxEntries), db, objects)
  {
    hide Faithful, Covered, SafeToEvict, Removed, Paired;
    if NeedsRoom(c, path, maxEntries) {
      var oldest := MinOf(c.lru.Keys);
      RemovedFaithful(c.nodes, mid.nodes, c.lru[oldest], db, objects);
      if !orphaned { EvictedCovered(c, mid, oldest, db); }
    }
  }

  lemma StoredIdsAgrees(c: CState, c2: CState, path: Path, ids: seq<InodeId>, orphaned: bool, db: Db, objects: DirObjects)
    requires StoredIds(c, c2, path, ids) && Agrees(c, orphaned, db, objects)
    requires UniqueParents(db) && Chain(db, path) == Some(ids)
    ensures Agrees(c2, orphaned, db, objects)
  {
    hide Faithful, Covered, Stored, Chain, UniqueParents;
    StoredIdsFaithful(c, c2, path, ids, db, objects);
    assert path[..|path|] == path;
    ChainDirs(db, path, |path|, path);
    hide DirsOf;
    if !orphaned { StoredCovered(c, c2, path, InodeIds(ids), ids, db); }
  }

  lemma StoredTerminalAgrees(c: CState, c2: CState, path: Path, parents: seq<InodeId>, t: Terminal,
                             orphaned: bool, db: Db, objects: DirObjects)
    requires StoredTerminal(c, c2, path, parents, t) && Agrees(c, orphaned, db, objects)
    requires UniqueParents(db) && EndsIn(db, objects, path, t) && Chain(db, path[..|path| - 1]) == Some(parents)
    ensures Agrees(c2, orphaned, db, objects)
  {
    hide Faithful, Covered, Stored, Chain, UniqueParents, Best;
    StoredTerminalFaithful(c, c2, path, parents, t, db, objects);
    ChainDirs(db, path[..|path| - 1], |path| - 1, path);
    hide DirsOf;
    if !orphaned { StoredCovered(c, c2, path, TerminalValue(t), parents, db); }
  }

  // The ids cached for a prefix are the chain to it.
  lemma IdsForChain(nodes: Nodes, db: Db, objects: DirObjects, path: Path)
    requires Faithful(nodes, db, objects) && IdsFor(nodes, path).Some?
    ensures Chain(db, path) == IdsFor(nodes, path)
  {
    SummaryIsChain(nodes, db, objects, path, IdsAt(nodes, path).value);
  }

  lemma TerminalIsTrue(nodes: Nodes, db: Db, objects: DirObjects, path: Path)
    requires Faithful(nodes, db, objects) && HasTerminal(nodes, path)
    ensures EndsIn(db, objects, path, nodes[path].value.value.terminal)
  {
    assert TrueValue(db, objects, path, nodes[path].value.value);
  }

  lemma PutIdsAgrees(c: CState, mid: CState, c2: CState, path: Path, ids: seq<InodeId>, maxEntries: nat,
                     orphaned: bool, db: Db, objects: DirObjects)
    requires WellFormed(c) && MadeRoom(c, mid, path, maxEntries) && StoredIds(mid, c2, path, ids)
    requires Agrees(c, orphaned, db, objects) && UniqueParents(db) && Chain(db, path) == Some(ids)
    ensures Agrees(c2, orphaned || RoomOrphans(c, path, maxEntries), db, objects)
  {
    Bookkeeping(c);
    hide *;
    RoomAgrees(c, mid, path, maxEntries, orphaned, db, objects);
    StoredIdsAgrees(mid, c2, path, ids, orphaned || RoomOrphans(c, path, maxEntries), db, objects);
  }

  lemma EndsThere(db: Db, objects: DirObjects, path: Path, i: nat, ids: seq<InodeId>, t: Terminal)
    requires i < |path| && Chain(db, path[..i]) == Some(ids) && Lookup(db, objects, ids[i], path[i]) == Found(TargetOf(t))
    ensures var p := path[..i + 1];
      p != [] && EndsIn(db, objects, p, t) && Chain(db, p[..|p| - 1]) == Some(ids)
  {
    hide Lookup, TargetOf;
    assert path[..i + 1][..i] == path[..i];
  }

  lemma PutTerminalAgrees(c: CState, mid: CState, c2: CState, path: Path, i: nat, ids: seq<InodeId>, t: Terminal,
                          maxEntries: nat, orphaned: bool, db: Db, objects: DirObjects)
    requires i < |path| && WellFormed(c) && MadeRoom(c, mid, path[..i + 1], maxEntries)
    requires StoredTerminal(mid, c2, path[..i + 1], ids, t)
    requires Agrees(c, orphaned, db, objects) && UniqueParents(db) && Chain(db, path[..i]) == Some(ids)
    requires Lookup(db, objects, ids[i], path[i]) == Found(TargetOf(t))
    ensures Agrees(c2, orphaned || RoomOrphans(c, path[..i + 1], maxEntries), db, objects)
  {
    var p := path[..i + 1];
    hide *;
    Bookkeeping(c);
    EndsThere(db, objects, path, i, ids, t);
    RoomAgrees(c, mid, p, maxEntries, orphaned, db, objects);
    StoredTerminalAgrees(mid, c2, p, ids, t, orphaned || RoomOrphans(c, p, maxEntries), db, objects);
  }

  // ---- what one round does to the cache ----

  // What was met on the way: the prefix with a cached terminal, the outcome, the cache once room was made, and
  // the ids stored.
  datatype RoundTrace = RoundTrace(hit: Option<nat>, w: WalkOutcome, mid: CState, ids: seq<InodeId>)

  // A walk stores the ids of an inode it ends in, or the terminal it stops at, and nothing else.
  ghost predicate StoresOutcome(c: CState, c2: CState, path: Path, t: RoundTrace, maxEntries: nat) {
    match t.w
    case AtInode(_) => MadeRoom(c, t.mid, path, maxEntries) && StoredIds(t.mid, c2, path, t.ids)
    case AtObj(o, i) => StoresTerminal(c, c2, path, i, TermObj(o), t, maxEntries)
    case AtLink(link, i) => StoresTerminal(c, c2, path, i, TermLink(link), t, maxEntries)
    case _ => c2 == c
  }

  ghost predicate StoresTerminal(c: CState, c2: CState, path: Path, i: nat, terminal: Terminal, t: RoundTrace, maxEntries: nat) {
    i < |path| && MadeRoom(c, t.mid, path[..i + 1], maxEntries) &&
    StoredTerminal(t.mid, c2, path[..i + 1], t.ids, terminal)
  }

  function StopAt(terminal: Terminal, i: nat): WalkOutcome {
    match terminal
    case TermObj(o) => AtObj(o, i)
    case TermLink(link) => AtLink(link, i)
  }

  // A cached terminal is answered and refreshed, a cached inode is answered, and else the walk is stored.
  ghost predicate Round(c: CState, c2: CState, path: Path, t: RoundTrace, maxEntries: nat) {
    match t.hit
    case Some(k) =>
      0 < k <= |path| && HasTerminal(c.nodes, path[..k]) && (forall j :: 0 < j < k ==> !HasTerminal(c.nodes, path[..j])) &&
      t.w == StopAt(c.nodes[path[..k]].value.value.terminal, k - 1) && Refreshed(c, c2, path[..k])
    case None =>
      (forall k :: 0 < k <= |path| ==> !HasTerminal(c.nodes, path[..k])) &&
      if path == [] || IdsFor(c.nodes, path).Some? then c2 == c else StoresOutcome(c, c2, path, t, maxEntries)
  }

  // The walk along ids finds the terminal under component i.
  ghost predicate FindsTerminal(db: Db, objects: DirObjects, components: Path, i: nat, ids: seq<InodeId>, terminal: Terminal) {
    UniqueParents(db) && i < |components| && |ids| == i + 1 && Chain(db, components[..i]) == Some(ids) &&
    Lookup(db, objects, ids[i], components[i]) == Found(TargetOf(terminal))
  }

  // The end of a walk at an object or a link.
  method StoreTerminal(cache: PathResolveCache, ghost db: Db, ghost objects: DirObjects, components: Path, i: nat,
                       ids: seq<InodeId>, terminal: Terminal)
    returns (w: WalkOutcome, ghost t: RoundTrace)
    requires cache.Valid() && i < |components| && |ids| == i + 1
    modifies cache
    ensures cache.Valid()
    ensures old(Agrees(cache.S(), cache.orphaned, db, objects)) && FindsTerminal(db, objects, components, i, ids, terminal) ==>
      Agrees(cache.S(), cache.orphaned, db, objects)
    ensures old(cache.orphaned) ==> cache.orphaned
    ensures cache.orphaned ==> old(cache.orphaned) || old(cache.entryCount) >= cache.maxEntries
    ensures w == StopAt(terminal, i) && t.hit.None? && t.w == w
    ensures StoresOutcome(old(cache.S()), cache.S(), components, t, cache.maxEntries)
  {
    hide Agrees, UniqueParents, Chain, EndsIn, MadeRoom, RoomOrphans, StoredTerminal, Lookup, TargetOf, WellFormed;
    ghost var c, orphaned := cache.S(), cache.orphaned;
    ghost var mid := cache.PutTerminal(components[..i + 1], ids, terminal);
    w := StopAt(terminal, i);
    t := RoundTrace(None, w, mid, ids);
    OnlyWhenFull(c, components[..i + 1], cache.maxEntries);
    if Agrees(c, orphaned, db, objects) && FindsTerminal(db, objects, components, i, ids, terminal) {
      PutTerminalAgrees(c, mid, cache.S(), components, i, ids, terminal, cache.maxEntries, orphaned, db, objects);
    }
  }

  // The end of a walk at an inode.
  method StoreIds(cache: PathResolveCache, ghost db: Db, ghost objects: DirObjects, components: Path, ids: seq<InodeId>, id: InodeId)
    returns (w: WalkOutcome, ghost t: RoundTrace)
    requires cache.Valid() && |ids| == |components| + 1
    modifies cache
    ensures cache.Valid()
    ensures old(Agrees(cache.S(), cache.orphaned, db, objects)) && UniqueParents(db) && Chain(db, components) == Some(ids) ==>
      Agrees(cache.S(), cache.orphaned, db, objects)
    ensures old(cache.orphaned) ==> cache.orphaned
    ensures cache.orphaned ==> old(cache.orphaned) || old(cache.entryCount) >= cache.maxEntries
    ensures w == AtInode(id) && t.hit.None? && t.w == w
    ensures StoresOutcome(old(cache.S()), cache.S(), components, t, cache.maxEntries)
  {
    hide Agrees, UniqueParents, Chain, MadeRoom, RoomOrphans, StoredIds, WellFormed;
    ghost var c, orphaned := cache.S(), cache.orphaned;
    ghost var mid := cache.PutIds(components, ids);
    w := AtInode(id);
    t := RoundTrace(None, w, mid, ids);
    OnlyWhenFull(c, components, cache.maxEntries);
    if Agrees(c, orphaned, db, objects) && UniqueParents(db) && Chain(db, components) == Some(ids) {
      PutIdsAgrees(c, mid, cache.S(), components, ids, cache.maxEntries, orphaned, db, objects);
    }
  }

  // The upper dentry, else the child of the base object.
  method FindTarget(db: Db, objects: DirObjects, dir: InodeId, name: Name) returns (r: LookupResult)
    ensures r == Lookup(db, objects, dir, name)
    ensures r.Found? && r.target.Inode? ==> (dir, name) in db.dentries && db.dentries[(dir, name)].target == r.target
  {
    if (dir, name) in db.dentries { return Found(db.dentries[(dir, name)].target); }
    if dir !in db.nodes { return Failed; }
    if db.nodes[dir].Kind() != Dir { return Absent; }
    return LookupBase(objects, db.nodes[dir].baseObj, name);
  }

  // Walks from a cached prefix and stores what it finds.
  method WalkAndStore(cache: PathResolveCache, db: Db, objects: DirObjects, components: Path, prefixIds: seq<InodeId>)
    returns (w: WalkOutcome, ghost t: RoundTrace)
    requires cache.Valid() && UniqueParents(db) && 0 < |prefixIds| <= |components|
    modifies cache
    ensures cache.Valid()
    ensures old(Agrees(cache.S(), cache.orphaned, db, objects)) ==>
      (Chain(db, components[..|prefixIds| - 1]) == Some(prefixIds) ==>
        w == WalkFrom(db, objects, ROOT, components, 0) && Agrees(cache.S(), cache.orphaned, db, objects))
    ensures w.AtObj? || w.AtLink? ==> w.index < |components|
    ensures w.AtInode? ==> w.id in db.nodes
    ensures old(cache.orphaned) ==> cache.orphaned
    ensures cache.orphaned ==> old(cache.orphaned) || old(cache.entryCount) >= cache.maxEntries
    ensures t.hit.None? && t.w == w && StoresOutcome(old(cache.S()), cache.S(), components, t, cache.maxEntries)
  {
    hide Agrees, UniqueParents, Chain, EndsIn, MadeRoom, RoomOrphans, StoredIds, StoredTerminal, WellFormed, Lookup;
    ghost var c, orphaned0 := cache.S(), cache.orphaned;
    ghost var agreed := Agrees(c, orphaned0, db, objects) &&
      Chain(db, components[..|prefixIds| - 1]) == Some(prefixIds);
    var ids := prefixIds;
    var i := |ids| - 1;
    var currentId := ids[i];
    while true
      invariant i < |components| && |ids| == i + 1 && currentId == ids[i]
      invariant cache.Valid() && cache.S() == c && cache.orphaned == orphaned0
      invariant agreed ==> Chain(db, components[..i]) == Some(ids)
      decreases |components| - i
    {
      var name := components[i];
      if agreed { WalkFromChain(db, objects, components, i); }
      var lookup := FindTarget(db, objects, currentId, name);
      if lookup == Failed { return Broken, RoundTrace(None, Broken, c, ids); }
      if lookup == Absent { return Missing, RoundTrace(None, Missing, c, ids); }
      var target := lookup.target;
      match target {
        case Tombstone => return Missing, RoundTrace(None, Missing, c, ids);
        case Inode(id) =>
          if agreed { ChainGrows(db, components, i, ids, id); }
          ids := ids + [id];
          currentId := id;
          if i == |components| - 1 {
            if id !in db.nodes { return Missing, RoundTrace(None, Missing, c, ids); }
            assert components[..|components|] == components;
            w, t := StoreIds(cache, db, objects, components, ids, id);
            return;
          }
        case Obj(o) =>
          w, t := StoreTerminal(cache, db, objects, components, i, ids, TermObj(o));
          return;
        case SymLink(link) =>
          w, t := StoreTerminal(cache, db, objects, components, i, ids, TermLink(link));
          return;
      }
      i := i + 1;
    }
  }

  lemma OnlyWhenFull(c: CState, path: Path, maxEntries: nat)
    ensures RoomOrphans(c, path, maxEntries) ==> c.count >= maxEntries
  {
    hide SafeToEvict;
  }

  lemma ChainGrows(db: Db, components: Path, i: nat, ids: seq<InodeId>, id: InodeId)
    requires i < |components| && Chain(db, components[..i]) == Some(ids)
    requires (ids[i], components[i]) in db.dentries && db.dentries[(ids[i], components[i])].target == Inode(id)
    ensures Chain(db, components[..i + 1]) == Some(ids + [id])
  {
    assert components[..i + 1][..i] == components[..i];
  }

  // What a resolve answers once its walk ended, unless it ended in a link that is expanded.
  function AnswerOf(db: Db, w: WalkOutcome, path: Path): Answer
    requires w.AtInode? ==> w.id in db.nodes
    requires w.AtObj? || w.AtLink? ==> w.index < |path|
  {
    match w
    case Broken => Error
    case Missing => Nothing
    case AtInode(id) => Resolved(InodeItem(id, db.nodes[id]), [])
    case AtObj(o, i) => Resolved(ObjItem(o), path[i + 1..])
    case AtLink(target, i) => Resolved(LinkItem(target), path[i + 1..])
  }

  function InodeOutcome(db: Db, id: InodeId): (w: WalkOutcome)
    ensures w.AtInode? ==> w.id in db.nodes
  {
    if id in db.nodes then AtInode(id) else Missing
  }

  // One round of the resolver's loop: a cached terminal, a cached inode, or a walk from a cached prefix.
  method WalkCached(cache: PathResolveCache, db: Db, objects: DirObjects, components: Path)
    returns (w: WalkOutcome, ghost t: RoundTrace)
    requires cache.Valid() && UniqueParents(db)
    modifies cache
    ensures cache.Valid()
    ensures old(Agrees(cache.S(), cache.orphaned, db, objects)) ==>
      w == WalkFrom(db, objects, ROOT, components, 0) && Agrees(cache.S(), cache.orphaned, db, objects)
    ensures w.AtObj? || w.AtLink? ==> w.index < |components|
    ensures w.AtInode? ==> w.id in db.nodes
    ensures old(cache.orphaned) ==> cache.orphaned
    ensures cache.orphaned ==> old(cache.orphaned) || (t.hit.None? && old(cache.entryCount) >= cache.maxEntries)
    ensures t.w == w && Round(old(cache.S()), cache.S(), components, t, cache.maxEntries)
  {
    hide Agrees, UniqueParents, EndsIn, WellFormed, LongestIds, IdsFor, Refreshed, HasTerminal, StoresOutcome;
    if components == [] {
      w := InodeOutcome(db, ROOT);
      t := RoundTrace(None, w, cache.S(), []);
      return;
    }
    ghost var c, orphaned := cache.S(), cache.orphaned;
    ghost var agreed := Agrees(c, orphaned, db, objects);
    var hit := cache.GetTerminal(components);
    if hit.Some? {
      var (matchedLen, terminal) := hit.value;
      w := StopAt(terminal, matchedLen - 1);
      t := RoundTrace(Some(matchedLen), w, c, []);
      if agreed {
        AgreesFaithful(c, orphaned, db, objects);
        TerminalIsTrue(c.nodes, db, objects, components[..matchedLen]);
        TerminalStopsWalk(db, objects, components, matchedLen, terminal);
        RefreshedAgrees(c, cache.S(), components[..matchedLen], orphaned, db, objects);
      }
      return;
    }
    var cached := cache.GetLongestPrefixIds(components);
    LongestAnswers(cache.nodes, components, cached);
    WholeAnswered(cache.nodes, components, cached);
    var ids := if cached.Some? then cached.value else [ROOT];
    if agreed {
      AgreesFaithful(c, orphaned, db, objects);
      CachedChain(cache.nodes, db, objects, components, cached);
    }
    if |ids| - 1 == |components| {
      if agreed { WalkFromChain(db, objects, components, |components|); }
      w := InodeOutcome(db, ids[|ids| - 1]);
      t := RoundTrace(None, w, c, []);
      return;
    }
    w, t := WalkAndStore(cache, db, objects, components, ids);
  }

  lemma AgreesFaithful(c: CState, orphaned: bool, db: Db, objects: DirObjects)
    requires Agrees(c, orphaned, db, objects)
    ensures Faithful(c.nodes, db, objects)
  {
    hide Faithful;
  }

  lemma LongestAnswers(nodes: Nodes, path: Path, ids: Option<seq<InodeId>>)
    requires LongestIds(nodes, path, |path|, ids)
    ensures ids.Some? ==> 0 < |ids.value| <= |path| + 1 && IdsFor(nodes, path[..|ids.value| - 1]) == ids
  {
    hide IdsFor;
  }

  // The whole path is answered exactly when it has ids of its own.
  lemma WholeAnswered(nodes: Nodes, path: Path, ids: Option<seq<InodeId>>)
    requires LongestIds(nodes, path, |path|, ids) && path != []
    requires ids.Some? ==> 0 < |ids.value| <= |path| + 1 && IdsFor(nodes, path[..|ids.value| - 1]) == ids
    ensures IdsFor(nodes, path).Some? <==> ids.Some? && |ids.value| - 1 == |path|
  {
    hide IdsFor;
    assert path[..|path|] == path;
  }

  lemma CachedChain(nodes: Nodes, db: Db, objects: DirObjects, path: Path, cached: Option<seq<InodeId>>)
    requires Faithful(nodes, db, objects)
    requires cached.Some? ==> 0 < |cached.value| <= |path| + 1 && IdsFor(nodes, path[..|cached.value| - 1]) == cached
    ensures cached.Some? ==> Chain(db, path[..|cached.value| - 1]) == cached
    ensures Chain(db, path[..0]) == Some([ROOT])
  {
    hide Faithful, IdsFor;
    if cached.Some? { IdsForChain(nodes, db, objects, path[..|cached.value| - 1]); }
  }

  // A resolve without expanding links is one round.
  ghost predicate OneRound(db: Db, c: CState, c2: CState, path: Path, t: RoundTrace, answer: Answer, maxEntries: nat) {
    Round(c, c2, path, t, maxEntries) && (t.w.AtInode? ==> t.w.id in db.nodes) &&
    (t.w.AtObj? || t.w.AtLink? ==> t.w.index < |path|) && answer == AnswerOf(db, t.w, path)
  }

  // handle_resolve_path_ex
  method ResolvePath(cache: PathResolveCache, db: Db, objects: DirObjects, path: Path, budget: nat)
    returns (answer: Answer, ghost t: RoundTrace)
    requires cache.Valid() && UniqueParents(db)
    modifies cache
    ensures cache.Valid()
    ensures old(Agrees(cache.S(), cache.orphaned, db, objects)) ==>
      answer == Resolve(db, objects, path, budget) && Agrees(cache.S(), cache.orphaned, db, objects)
    ensures old(Agrees(cache.S(), cache.orphaned, db, objects)) ==> RightAnswer(db, objects, path, budget, answer)
    ensures old(cache.orphaned) ==> cache.orphaned
    ensures budget == 0 ==>
      OneRound(db, old(cache.S()), cache.S(), path, t, answer, cache.maxEntries) &&
      (cache.orphaned ==> old(cache.orphaned) || (t.hit.None? && old(cache.entryCount) >= cache.maxEntries))
    ensures budget == 0 && old(Agrees(cache.S(), cache.orphaned, db, objects)) ==> t.w == WalkFrom(db, objects, ROOT, path, 0)
  {
    hide Agrees, UniqueParents, WellFormed, WalkFrom, Normalize, Round, RightAnswer;
    ResolveIsRight(db, objects, path, budget);
    ghost var agreed := Agrees(cache.S(), cache.orphaned, db, objects);
    var components := path;
    var symCount: nat := budget;
    while true
      invariant cache.Valid() && (old(cache.orphaned) ==> cache.orphaned)
      invariant symCount <= budget
      invariant budget == 0 ==> cache.S() == old(cache.S()) && cache.orphaned == old(cache.orphaned) && components == path
      invariant agreed ==> Agrees(cache.S(), cache.orphaned, db, objects)
      invariant agreed ==> Resolve(db, objects, components, symCount) == Resolve(db, objects, path, budget)
      decreases symCount
    {
      var w;
      w, t := WalkCached(cache, db, objects, components);
      if !w.AtLink? || symCount == 0 {
        answer := AnswerOf(db, w, components);
        return;
      }
      symCount := symCount - 1;
      components := NormalizeSymlinkTarget(components[..w.index], w.link, components[w.index + 1..]);
    }
  }

  // ---- runs ----

  datatype FsStep =
    | ResolveStep(path: Path, budget: nat)
    | CommitStep(db: Db, edges: seq<Edge>)

  // Each commit goes to a tree with unique parents that differs in the edges it touched only.
  ghost predicate ValidRun(db: Db, steps: seq<FsStep>)
    decreases |steps|
  {
    steps == [] ||
    match steps[0]
    case ResolveStep(_, _) => ValidRun(db, steps[1..])
    case CommitStep(db2, edges) =>
      UniqueParents(db2) && DiffersIn(db, db2, set e | e in edges) && ValidRun(db2, steps[1..])
  }

  // The answers without a cache.
  ghost function Uncached(db: Db, objects: DirObjects, steps: seq<FsStep>): seq<Answer>
    decreases |steps|
  {
    if steps == [] then []
    else
      match steps[0]
      case ResolveStep(path, budget) => [Resolve(db, objects, path, budget)] + Uncached(db, objects, steps[1..])
      case CommitStep(db2, _) => Uncached(db2, objects, steps[1..])
  }

  lemma InvalidatedAgrees(c: CState, c2: CState, e: Edge, db: Db, objects: DirObjects, done: seq<Edge>)
    requires WellFormed(c) && EdgeInvalidated(c, c2, e) && Agrees(c, false, db, objects)
    requires NoneUsed(c.nodes, db, set k | k in done)
    ensures Agrees(c2, false, db, objects) && NoneUsed(c2.nodes, db, set k | k in done + [e])
  {
    Bookkeeping(c);
    hide WellFormed, Trie, Paired, Faithful, Covered, Invalidated, Unused, Fewer, NoneUsed;
    InvalidatedUnused(c, c2, e, db);
    if e in c.edges {
      InvalidatedFaithful(c, c2, c.edges[e], db, objects);
      InvalidatedCovered(c, c2, c.edges[e], db);
    }
    EdgeInvalidatedFewer(c, c2, e);
    hide EdgeInvalidated;
    StillUnused(c.nodes, c2.nodes, db, done, e);
  }

  lemma StillUnused(nodes: Nodes, nodes2: Nodes, db: Db, done: seq<Edge>, e: Edge)
    requires Fewer(nodes, nodes2) && NoneUsed(nodes, db, set k | k in done) && Unused(nodes2, db, e)
    ensures NoneUsed(nodes2, db, set k | k in done + [e])
  {
    hide Fewer, Unused;
    forall k | k in done ensures Unused(nodes2, db, k) {
      assert Unused(nodes, db, k);
      FewerUnused(nodes, nodes2, db, k);
    }
  }

  lemma EdgeInvalidatedFewer(c: CState, c2: CState, e: Edge)
    requires EdgeInvalidated(c, c2, e)
    ensures Fewer(c.nodes, c2.nodes)
  {
    hide Invalidated;
    if e in c.edges { InvalidatedFewer(c, c2, c.edges[e]); }
  }

  lemma FewerUnused(nodes: Nodes, nodes2: Nodes, db: Db, e: Edge)
    requires Fewer(nodes, nodes2) && Unused(nodes, db, e)
    ensures Unused(nodes2, db, e)
  {
    hide Uses;
  }

  // The cache's part of a commit: every touched edge is invalidated.
  method Commit(cache: PathResolveCache, ghost db: Db, ghost db2: Db, ghost objects: DirObjects, edges: seq<Edge>)
    requires cache.Valid()
    modifies cache
    ensures cache.Valid() && cache.orphaned == old(cache.orphaned)
    ensures DiffersIn(db, db2, set e | e in edges) ==>
      (!old(cache.orphaned) && old(Agrees(cache.S(), cache.orphaned, db, objects)) ==>
        Agrees(cache.S(), cache.orphaned, db2, objects))
    ensures (forall e :: e in edges ==> e !in old(cache.edgeIndex)) ==> cache.S() == old(cache.S())
  {
    hide Agrees, WellFormed, EdgeInvalidated, NoneUsed, DiffersIn;
    ghost var agreed := !cache.orphaned && Agrees(cache.S(), cache.orphaned, db, objects);
    NoneUsedYet(cache.nodes, db);
    for k := 0 to |edges|
      invariant cache.Valid() && cache.orphaned == old(cache.orphaned)
      invariant (forall e :: e in edges ==> e !in old(cache.edgeIndex)) ==> cache.S() == old(cache.S())
      invariant agreed ==> Agrees(cache.S(), false, db, objects)
      invariant agreed ==> NoneUsed(cache.nodes, db, set e | e in edges[..k])
    {
      ghost var c := cache.S();
      cache.InvalidateByEdge(edges[k].0, edges[k].1);
      UnknownEdge(c, cache.S(), edges[k]);
      assert edges[..k + 1] == edges[..k] + [edges[k]];
      if agreed { InvalidatedAgrees(c, cache.S(), edges[k], db, objects, edges[..k]); }
    }
    assert edges[..|edges|] == edges;
    if agreed && DiffersIn(db, db2, set e | e in edges) {
      ChangedAgrees(cache.S(), db, db2, objects, set e | e in edges);
    }
  }

  lemma UnknownEdge(c: CState, c2: CState, e: Edge)
    requires EdgeInvalidated(c, c2, e)
    ensures e !in c.edges ==> c2 == c
  {
  }

  lemma NoneUsedYet(nodes: Nodes, db: Db)
    ensures NoneUsed(nodes, db, set e: Edge | e in [])
  {
  }

  lemma ChangedAgrees(c: CState, db: Db, db2: Db, objects: DirObjects, edges: set<Edge>)
    requires Agrees(c, false, db, objects) && NoneUsed(c.nodes, db, edges) && DiffersIn(db, db2, edges)
    ensures Agrees(c, false, db2, objects)
  {
    hide Faithful, Covered, NoneUsed, DiffersIn;
    ChangeKeepsAgreement(c, db, db2, objects, edges);
  }

  // Any run of resolves and commits, from an empty cache: unless an eviction orphaned an index row,
  // all answers are those of the dentry-by-dentry walk on the tree as it was at that step.
  method Run(cache: PathResolveCache, start: Db, objects: DirObjects, steps: seq<FsStep>) returns (answers: seq<Answer>)
    requires cache.Valid() && cache.S() == Empty(0) && !cache.orphaned
    requires UniqueParents(start) && ValidRun(start, steps)
    modifies cache
    ensures cache.Valid()
    ensures !cache.orphaned ==> answers == Uncached(start, objects, steps)
  {
    hide Agrees, WellFormed, UniqueParents, DiffersIn, Resolve, WalkFrom, OneRound, RightAnswer;
    EmptyAgrees(0, start, objects);
    answers := [];
    var db := start;
    for k := 0 to |steps|
      invariant cache.Valid() && UniqueParents(db) && ValidRun(db, steps[k..])
      invariant !cache.orphaned ==> Agrees(cache.S(), cache.orphaned, db, objects)
      invariant !cache.orphaned ==>
        Uncached(start, objects, steps) == answers + Uncached(db, objects, steps[k..])
    {
      assert steps[k..][1..] == steps[k + 1..];
      match steps[k] {
        case ResolveStep(path, budget) =>
          var answer, _ := ResolvePath(cache, db, objects, path, budget);
          answers := answers + [answer];
        case CommitStep(db2, edges) =>
          Commit(cache, db, db2, objects, edges);
          db := db2;
      }
    }
  }

  lemma EmptyAgrees(next: nat, db: Db, objects: DirObjects)
    ensures Agrees(Empty(next), false, db, objects)
  {
  }
}
