// The client's side of a move: making sure both directories exist as inodes, comparing the paths, and
// asking the service to move.  Calls are not interleaved with one another here.
module ClientMove {
  import opened Bytes
  import opened FsTypes
  import opened Resolver
  import opened NamespaceState
  import opened Namespace
  import opened Move
  import opened MoveTree
  import opened CacheCoherence
  import opened TouchedEdges
  import opened EnsureDir

  // ---- the move ----

  // Comparing the paths is enough: what is moved is not at or above the destination directory.
  lemma PathsAreEnough(db: Db, oldPath: Path, newPath: Path, src: InodeId, dst: InodeId, x: InodeId)
    requires Rooted(db) && PlainPath(oldPath) && PlainPath(newPath) && oldPath != [] && newPath != []
    requires Descend(db, ROOT, oldPath[..|oldPath| - 1]) == Some(src)
    requires Descend(db, ROOT, newPath[..|newPath| - 1]) == Some(dst)
    requires ChildInode(db, (src, oldPath[|oldPath| - 1])) == Some(x)
    requires !IsDescendantPath(Text(newPath), Text(oldPath))
    ensures Avoids(db, x, dst)
  {
    DescendantIsPrefix(newPath, oldPath);
    hide Rooted, IsDescendantPath, Avoids;
    assert oldPath <= newPath[..|newPath| - 1] ==> oldPath <= newPath && oldPath != newPath;
    OutsideAvoids(db, oldPath, newPath[..|newPath| - 1], x);
  }

  // The plan moves between the two paths: their directories are reached from the root.
  ghost predicate PlansPaths(db: Db, plan: MovePlan, oldPath: Path, newPath: Path) {
    oldPath != [] && newPath != [] &&
    Descend(db, ROOT, oldPath[..|oldPath| - 1]) == Some(plan.srcParent) && plan.srcName == oldPath[|oldPath| - 1] &&
    Descend(db, ROOT, newPath[..|newPath| - 1]) == Some(plan.dstParent) && plan.dstName == newPath[|newPath| - 1]
  }

  // What a client move leaves behind.  Short of a plan only missing directories were made; with one, before
  // is the state the service moved in.
  ghost predicate ClientMoved(db: Db, before: Db, db2: Db, oldPath: Path, newPath: Path, plan: Option<MovePlan>) {
    match plan
    case None => db2 == before
    case Some(p) => Rooted(db) ==> Movable(before, p) && PlansPaths(before, p, oldPath, newPath) && db2 == Moved(before, p)
  }

  // ---- when a move goes through ----

  // Exactly when: both directories can be opened, the source directory was there, both can be written, the source
  // is something to move, and the new path is not below the old one.  A path can be moved onto itself if its
  // directory can be opened.
  ghost predicate MoveGoes(db: Db, objects: DirObjects, oldPath: Path, newPath: Path) {
    oldPath != [] && newPath != [] &&
    var src := Opens(db, objects, oldPath[..|oldPath| - 1]);
    var dst := Opens(db, objects, newPath[..|newPath| - 1]);
    if oldPath == newPath then src.Some?
    else
      !(oldPath <= newPath) && src.Some? && dst.Some? && src.value.There? && Writable(db, src.value.id) &&
      (dst.value.There? ==> Writable(db, dst.value.id)) && Movables(db, (src.value.id, oldPath[|oldPath| - 1]))
  }

  // What opening both directories found: mid is the state between the two.
  ghost predicate BothOpened(start: Db, mid: Db, db: Db, objects: DirObjects, srcPath: Path, dstPath: Path,
                             src: Result<InodeId, NsError>, dst: Result<InodeId, NsError>, more: seq<Edge>)
  {
    (src.Ok? <==> Opens(start, objects, srcPath).Some?) &&
    (src.Ok? ==>
      (exists t :: OpenedAt(start, mid, Opens(start, objects, srcPath).value, src.value, t)) &&
      DirsAlong(mid, srcPath) && Rooted(mid) && (dst.Ok? <==> Opens(mid, objects, dstPath).Some?)) &&
    (src.Ok? && dst.Ok? ==>
      OpenedAt(mid, db, Opens(mid, objects, dstPath).value, dst.value, more) &&
      DiffersIn(mid, db, set f | f in more) && NodesKept(mid, db) && forall e :: e in more ==> OnPath(db, dstPath, |dstPath|, e))
  }

  // Making the destination directory touches the source row only if the new path is below the old one.
  lemma OnPathIsBelow(db: Db, oldPath: Path, newPath: Path, src: InodeId)
    requires Rooted(db) && oldPath != [] && newPath != []
    requires Descend(db, ROOT, oldPath[..|oldPath| - 1]) == Some(src)
    requires OnPath(db, newPath[..|newPath| - 1], |newPath| - 1, (src, oldPath[|oldPath| - 1]))
    ensures oldPath <= newPath && oldPath != newPath
  {
    var p, q := oldPath[..|oldPath| - 1], newPath[..|newPath| - 1];
    var k :| 0 <= k < |q| && Descend(db, ROOT, q[..k]) == Some(src) && q[k] == oldPath[|oldPath| - 1];
    hide *;
    DescentUnique(db, p, q[..k]);
    StepBelow(oldPath, newPath, k);
  }

  lemma StepBelow(oldPath: Path, newPath: Path, k: nat)
    requires oldPath != [] && k < |newPath| - 1
    requires oldPath[..|oldPath| - 1] == newPath[..|newPath| - 1][..k] && oldPath[|oldPath| - 1] == newPath[k]
    ensures oldPath <= newPath && oldPath != newPath
  {
    FrontAndLast(oldPath);
    assert newPath[..|newPath| - 1][..k] == newPath[..k];
    assert oldPath == newPath[..k] + [newPath[k]];
    assert oldPath == newPath[..k + 1];
  }

  // Two paths that lead to one inode are one path.
  lemma DescentUnique(db: Db, p: Path, q: Path)
    requires Rooted(db) && Descend(db, ROOT, p).Some? && Descend(db, ROOT, p) == Descend(db, ROOT, q)
    ensures p == q
  {
    hide Descend, Chain;
    RootedHasUniqueParents(db);
    hide Rooted, UniqueParents;
    ChainIsDescend(db, p);
    ChainIsDescend(db, q);
    ChainUnique(db, p, q);
  }

  lemma SourceKept(mid: Db, db: Db, oldPath: Path, newPath: Path, src: InodeId, more: seq<Edge>)
    requires Rooted(db) && oldPath != [] && newPath != [] && (oldPath <= newPath ==> oldPath == newPath)
    requires Descend(db, ROOT, oldPath[..|oldPath| - 1]) == Some(src)
    requires DiffersIn(mid, db, set f | f in more)
    requires forall e :: e in more ==> OnPath(db, newPath[..|newPath| - 1], |newPath| - 1, e)
    ensures TargetAt(mid, (src, oldPath[|oldPath| - 1])) == TargetAt(db, (src, oldPath[|oldPath| - 1]))
  {
    hide Rooted, Descend, OnPath;
    var e := (src, oldPath[|oldPath| - 1]);
    if e in more { OnPathIsBelow(db, oldPath, newPath, src); }
  }

  lemma MovablesKept(mid: Db, db: Db, e: Edge)
    requires BackPointers(mid) && NodesKept(mid, db) && TargetAt(mid, e) == TargetAt(db, e)
    ensures Movables(mid, e) <==> Movables(db, e)
    ensures Movables(mid, e) ==> (Writable(mid, e.0) <==> Writable(db, e.0))
  {
    if e in mid.dentries && mid.dentries[e].target.Inode? { TargetIsReferred(mid, e, mid.dentries[e].target.id); }
    if e.0 in mid.nodes { assert SameExceptLinks(mid.nodes[e.0], db.nodes[e.0]); }
  }

  // With a movable source the plan exists exactly if both directories can be written.
  lemma PlanGoes(db: Db, oldPath: Path, newPath: Path, src: InodeId, dst: InodeId)
    requires Rooted(db) && PlainPath(oldPath) && PlainPath(newPath) && oldPath != [] && newPath != []
    requires Descend(db, ROOT, oldPath[..|oldPath| - 1]) == Some(src)
    requires Descend(db, ROOT, newPath[..|newPath| - 1]) == Some(dst)
    requires !IsDescendantPath(Text(newPath), Text(oldPath))
    ensures PlanMove(db, db, db, src, oldPath[|oldPath| - 1], dst, newPath[|newPath| - 1]).Ok? <==>
      oldPath == newPath ||
      (Writable(db, src) && Writable(db, dst) && Movables(db, (src, oldPath[|oldPath| - 1])))
  {
    var srcName, dstName := oldPath[|oldPath| - 1], newPath[|newPath| - 1];
    PlainNames(oldPath);
    PlainNames(newPath);
    PlanExists(db, db, db, src, srcName, dst, dstName);
    PlanChecks(db, db, db, src, srcName, dst, dstName);
    hide PlanMove, Rooted, Descend, PlainPath, IsDescendantPath, Writable, Avoids;
    if ChildInode(db, (src, srcName)).Some? {
      PathsAreEnough(db, oldPath, newPath, src, dst, ChildInode(db, (src, srcName)).value);
      NotItself(db, ChildInode(db, (src, srcName)).value, dst);
    }
    if (src, srcName) == (dst, dstName) {
      SamePaths(db, oldPath, newPath, src, dst);
    }
  }

  lemma PlainNames(path: Path)
    requires PlainPath(path) && path != []
    ensures path[|path| - 1] != ""
  {
    assert Plain(path[|path| - 1]);
  }

  lemma NotItself(db: Db, x: InodeId, dir: InodeId)
    requires Avoids(db, x, dir)
    ensures x != dir
  {
    assert Descend(db, x, []) == Some(x);
  }

  // The condition, once both directories are open.
  lemma GoesWhenOpened(start: Db, mid: Db, db: Db, objects: DirObjects, oldPath: Path, newPath: Path,
                       src: InodeId, dst: InodeId, more: seq<Edge>)
    requires Rooted(start) && Rooted(db) && oldPath != [] && newPath != []
    requires BothOpened(start, mid, db, objects, oldPath[..|oldPath| - 1], newPath[..|newPath| - 1], Ok(src), Ok(dst), more)
    requires Descend(db, ROOT, oldPath[..|oldPath| - 1]) == Some(src)
    requires !(oldPath <= newPath)
    ensures MoveGoes(start, objects, oldPath, newPath) <==>
      Writable(db, src) && Writable(db, dst) && Movables(db, (src, oldPath[|oldPath| - 1]))
    ensures MoveGoes(start, objects, oldPath, newPath) ==>
      mid == start && TargetAt(start, (src, oldPath[|oldPath| - 1])) == TargetAt(db, (src, oldPath[|oldPath| - 1]))
  {
    var e := (src, oldPath[|oldPath| - 1]);
    SourceKept(mid, db, oldPath, newPath, src, more);
    RootedBackPointers(mid);
    MovablesKept(mid, db, e);
    hide Opens, DirsAlong, DiffersIn, NodesKept, OnPath, Rooted, Descend;
  }

  // If the second directory cannot be opened, the move does not go through.
  lemma DstRefused(start: Db, mid: Db, db: Db, objects: DirObjects, oldPath: Path, newPath: Path, src: InodeId,
                   dst: Result<InodeId, NsError>, more: seq<Edge>)
    requires oldPath != [] && newPath != [] && dst.Err?
    requires BothOpened(start, mid, db, objects, oldPath[..|oldPath| - 1], newPath[..|newPath| - 1], Ok(src), dst, more)
    ensures !MoveGoes(start, objects, oldPath, newPath)
  {
    ExistingOpens(mid, objects, oldPath[..|oldPath| - 1]);
    hide Opens, DirsAlong, Rooted, Descend, Movables;
  }

  // A move is planned, or needs no plan, exactly if it goes through.
  lemma Decided(start: Db, mid: Db, db: Db, objects: DirObjects, oldPath: Path, newPath: Path,
                src: InodeId, dst: InodeId, more: seq<Edge>)
    requires Rooted(start) && Rooted(db) && PlainPath(oldPath) && PlainPath(newPath) && oldPath != [] && newPath != []
    requires BothOpened(start, mid, db, objects, oldPath[..|oldPath| - 1], newPath[..|newPath| - 1], Ok(src), Ok(dst), more)
    requires Descend(db, ROOT, oldPath[..|oldPath| - 1]) == Some(src)
    requires Descend(db, ROOT, newPath[..|newPath| - 1]) == Some(dst)
    requires !IsDescendantPath(Text(newPath), Text(oldPath))
    ensures PlanMove(db, db, db, src, oldPath[|oldPath| - 1], dst, newPath[|newPath| - 1]).Ok? <==>
      MoveGoes(start, objects, oldPath, newPath)
  {
    PlanGoes(db, oldPath, newPath, src, dst);
    DescendantIsPrefix(newPath, oldPath);
    hide IsDescendantPath, Rooted, Descend, PlainPath, PlanMove;
    if oldPath != newPath {
      GoesWhenOpened(start, mid, db, objects, oldPath, newPath, src, dst, more);
    }
    hide Opens, OpenedAt, DirsAlong, OnPath, DiffersIn, Movables, Writable;
  }

  // The source directory was there, with the row that is moved.
  lemma SourceWasThere(start: Db, mid: Db, db: Db, objects: DirObjects, oldPath: Path, newPath: Path,
                       src: InodeId, dst: InodeId, more: seq<Edge>)
    requires Rooted(start) && Rooted(db) && oldPath != [] && newPath != [] && !(oldPath <= newPath)
    requires BothOpened(start, mid, db, objects, oldPath[..|oldPath| - 1], newPath[..|newPath| - 1], Ok(src), Ok(dst), more)
    requires Descend(db, ROOT, oldPath[..|oldPath| - 1]) == Some(src) && MoveGoes(start, objects, oldPath, newPath)
    ensures Descend(start, ROOT, oldPath[..|oldPath| - 1]) == Some(src)
    ensures TargetAt(start, (src, oldPath[|oldPath| - 1])) == TargetAt(db, (src, oldPath[|oldPath| - 1]))
  {
    ExistingOpens(start, objects, oldPath[..|oldPath| - 1]);
    GoesWhenOpened(start, mid, db, objects, oldPath, newPath, src, dst, more);
    hide Opens, DirsAlong, OnPath, DiffersIn, Movables, Writable, Rooted, Descend;
  }

  // What is found afterwards: under the new path what was under the old one, and a tombstone where it was.
  ghost predicate Landed(db: Db, db2: Db, oldPath: Path, newPath: Path, plan: MovePlan) {
    oldPath != [] && newPath != [] &&
    Descend(db, ROOT, oldPath[..|oldPath| - 1]) == Some(plan.srcParent) && plan.srcName == oldPath[|oldPath| - 1] &&
    Descend(db2, ROOT, newPath[..|newPath| - 1]) == Some(plan.dstParent) && plan.dstName == newPath[|newPath| - 1] &&
    TargetAt(db, Src(plan)) == Some(plan.target) && plan.target != Tombstone &&
    TargetAt(db2, Dst(plan)) == Some(plan.target) && TargetAt(db2, Src(plan)) == Some(Tombstone)
  }

  // The move leaves the way to the destination directory as it is.
  lemma {:induction false} WayStays(db: Db, oldPath: Path, newPath: Path, plan: MovePlan, k: nat)
    requires Rooted(db) && Movable(db, plan) && PlansPaths(db, plan, oldPath, newPath) && !(oldPath < newPath) && k < |newPath|
    ensures Descend(db, ROOT, newPath[..k]).Some?
    ensures Descend(Moved(db, plan), ROOT, newPath[..k]) == Descend(db, ROOT, newPath[..k])
  {
    hide Rooted, Movable, Moved;
    assert newPath[..|newPath| - 1][..k] == newPath[..k];
    DescendPrefix(db, ROOT, newPath[..|newPath| - 1], k);
    if k > 0 {
      assert newPath[..k][..k - 1] == newPath[..k - 1];
      WayStays(db, oldPath, newPath, plan, k - 1);
      EdgeStays(db, oldPath, newPath, plan, k - 1, Descend(db, ROOT, newPath[..k - 1]).value);
    }
  }

  lemma EdgeStays(db: Db, oldPath: Path, newPath: Path, plan: MovePlan, k: nat, dir: InodeId)
    requires Rooted(db) && Movable(db, plan) && PlansPaths(db, plan, oldPath, newPath) && !(oldPath < newPath)
    requires k < |newPath| - 1 && Descend(db, ROOT, newPath[..k]) == Some(dir)
    ensures ChildInode(Moved(db, plan), (dir, newPath[k])) == ChildInode(db, (dir, newPath[k]))
  {
    var e := (dir, newPath[k]);
    MovedRows(db, plan);
    hide Rooted, Movable, Moved, Descend;
    var p, q := oldPath[..|oldPath| - 1], newPath[..|newPath| - 1];
    assert q[..k] == newPath[..k];
    if e == Src(plan) {
      DescentUnique(db, p, newPath[..k]);
      StepBelow(oldPath, newPath, k);
    }
    if dir == plan.dstParent { DescentUnique(db, q, newPath[..k]); }
  }

  lemma MoveLands(db: Db, oldPath: Path, newPath: Path, plan: MovePlan)
    requires Rooted(db) && Movable(db, plan) && PlansPaths(db, plan, oldPath, newPath) && !(oldPath < newPath)
    ensures Landed(db, Moved(db, plan), oldPath, newPath, plan)
  {
    hide Rooted, Moved, Descend, Movable;
    MovedTargets(db, plan);
    WayStays(db, oldPath, newPath, plan, |newPath| - 1);
  }

  lemma MovedTargets(db: Db, plan: MovePlan)
    requires Movable(db, plan)
    ensures TargetAt(db, Src(plan)) == Some(plan.target) && plan.target != Tombstone
    ensures TargetAt(Moved(db, plan), Dst(plan)) == Some(plan.target) && TargetAt(Moved(db, plan), Src(plan)) == Some(Tombstone)
  {
    MovedRows(db, plan);
    hide Moved, BackPointers;
  }

  // The same, told from the state before the destination directory was made.
  lemma LandsFrom(start: Db, db: Db, oldPath: Path, newPath: Path, plan: MovePlan)
    requires Rooted(db) && Movable(db, plan) && PlansPaths(db, plan, oldPath, newPath) && !(oldPath < newPath)
    requires Descend(start, ROOT, oldPath[..|oldPath| - 1]) == Some(plan.srcParent)
    requires TargetAt(start, Src(plan)) == TargetAt(db, Src(plan))
    ensures Landed(start, Moved(db, plan), oldPath, newPath, plan)
  {
    hide Rooted, Movable, Moved, Descend;
    MoveLands(db, oldPath, newPath, plan);
  }

  // FsMetaClient::move_path: whatever it answers, back-pointers stay right and a tree stays a tree.  A path is
  // never moved below itself, and only a path moved onto itself needs no plan.  A move goes through exactly if
  // MoveGoes says so, and then what was under the old path is under the new one.
  method MovePath(tables: Tables, objects: DirObjects, oldPath: Path, newPath: Path)
    returns (r: Result<(), NsError>, touched: seq<Edge>, ghost before: Db, ghost plan: Option<MovePlan>)
    requires PlainPath(oldPath) && PlainPath(newPath)
    modifies tables
    ensures Grows(old(tables.S()), before) && SameView(old(tables.S()), before, objects)
    ensures ClientMoved(old(tables.S()), before, tables.S(), oldPath, newPath, plan)
    ensures Rooted(old(tables.S())) ==>
      Rooted(tables.S()) && DiffersIn(old(tables.S()), tables.S(), set f | f in touched) && (plan.Some? ==> r.Ok?)
    ensures Tree(old(tables.S())) ==> Tree(tables.S())
    ensures oldPath <= newPath && oldPath != newPath ==> r.Err?
    ensures Rooted(old(tables.S())) && r.Ok? ==> (plan.None? <==> oldPath == newPath)
    ensures Rooted(old(tables.S())) ==> (r.Ok? <==> MoveGoes(old(tables.S()), objects, oldPath, newPath))
    ensures Rooted(old(tables.S())) && plan.Some? ==> Landed(old(tables.S()), tables.S(), oldPath, newPath, plan.value)
  {
    hide Tree, Rooted, PlanMove, Applies, Moved, Movable, Descend, ChildInode, Keeps, Grows, SameView, DiffersIn, PlansPaths,
         IsDescendantPath, PlainPath, BothOpened, MoveGoes, Landed;
    ghost var start := tables.S();
    before, plan, touched := start, None, [];
    KeepsStart(start, objects);
    KeepsGrows(start, before, objects, touched);
    TreeIsRooted(start);
    if oldPath == [] || newPath == [] {
      NoPathNoMove(start, objects, oldPath, newPath);
      r := Err(InvalidPath);
      return;
    }
    var srcPath, srcName := oldPath[..|oldPath| - 1], oldPath[|oldPath| - 1];
    var dstPath, dstName := newPath[..|newPath| - 1], newPath[|newPath| - 1];
    var src, dst;
    ghost var mid, more;
    src, dst, touched, mid, more := EnsureBoth(tables, objects, srcPath, dstPath);
    before := tables.S();
    KeepsGrows(start, before, objects, touched);
    if Rooted(start) { Refused(start, mid, before, objects, oldPath, newPath, src, dst, more); }
    if src.Err? { r := Err(src.error); return; }
    if dst.Err? { r := Err(dst.error); return; }
    DescendantIsPrefix(newPath, oldPath);
    if IsDescendantPath(Text(newPath), Text(oldPath)) { r := Err(InvalidName); return; }
    var db := tables.S();
    if Rooted(start) { Decided(start, mid, db, objects, oldPath, newPath, src.value, dst.value, more); }
    var planned := PlanMove(db, db, db, src.value, srcName, dst.value, dstName);
    if planned.Err? { r := Err(planned.error); return; }
    if planned.value.None? {
      if Rooted(start) { SamePaths(db, oldPath, newPath, src.value, dst.value); }
      r := Ok(());
      return;
    }
    plan := planned.value;
    if Rooted(start) { PlannedMove(start, db, oldPath, newPath, src.value, dst.value, plan.value, touched); }
    if Rooted(start) { Lands(start, mid, db, objects, oldPath, newPath, src.value, dst.value, more, plan.value); }
    var p := planned.value.value;
    r := ApplyMove(tables, p);
    if r.Ok? { touched := touched + MoveTouched(db, p); }
  }

  lemma NoPathNoMove(db: Db, objects: DirObjects, oldPath: Path, newPath: Path)
    requires oldPath == [] || newPath == []
    ensures !MoveGoes(db, objects, oldPath, newPath)
  {
  }

  // A directory that cannot be opened, or a new path below the old one: no move.
  lemma Refused(start: Db, mid: Db, db: Db, objects: DirObjects, oldPath: Path, newPath: Path,
                src: Result<InodeId, NsError>, dst: Result<InodeId, NsError>, more: seq<Edge>)
    requires oldPath != [] && newPath != []
    requires BothOpened(start, mid, db, objects, oldPath[..|oldPath| - 1], newPath[..|newPath| - 1], src, dst, more)
    ensures src.Err? || dst.Err? || (oldPath <= newPath && oldPath != newPath) ==> !MoveGoes(start, objects, oldPath, newPath)
  {
    if src.Ok? && dst.Err? { DstRefused(start, mid, db, objects, oldPath, newPath, src.value, dst, more); }
    hide Opens, OpenedAt, DirsAlong, Rooted, Movables, Writable;
  }

  lemma Lands(start: Db, mid: Db, db: Db, objects: DirObjects, oldPath: Path, newPath: Path,
              src: InodeId, dst: InodeId, more: seq<Edge>, plan: MovePlan)
    requires Rooted(start) && Rooted(db) && PlainPath(oldPath) && PlainPath(newPath) && oldPath != [] && newPath != []
    requires BothOpened(start, mid, db, objects, oldPath[..|oldPath| - 1], newPath[..|newPath| - 1], Ok(src), Ok(dst), more)
    requires Descend(db, ROOT, oldPath[..|oldPath| - 1]) == Some(src)
    requires !IsDescendantPath(Text(newPath), Text(oldPath)) && MoveGoes(start, objects, oldPath, newPath)
    requires Movable(db, plan) && PlansPaths(db, plan, oldPath, newPath)
    ensures Landed(start, Moved(db, plan), oldPath, newPath, plan) && oldPath != newPath
  {
    DescendantIsPrefix(newPath, oldPath);
    assert Src(plan) == (src, oldPath[|oldPath| - 1]);
    assert oldPath != newPath;
    hide IsDescendantPath, Rooted, Descend, PlainPath, Movable, PlansPaths, BothOpened, MoveGoes, Landed, Moved;
    SourceWasThere(start, mid, db, objects, oldPath, newPath, src, dst, more);
    LandsFrom(start, db, oldPath, newPath, plan);
  }

  lemma TreeIsRooted(db: Db)
    ensures Tree(db) ==> Rooted(db)
  {
  }

  // Both directories of a move, the second only if the first is there.
  method EnsureBoth(tables: Tables, objects: DirObjects, srcPath: Path, dstPath: Path)
    returns (src: Result<InodeId, NsError>, dst: Result<InodeId, NsError>, touched: seq<Edge>,
             ghost mid: Db, ghost more: seq<Edge>)
    modifies tables
    ensures Keeps(old(tables.S()), tables.S(), objects, touched)
    ensures Rooted(old(tables.S())) ==>
      BothOpened(old(tables.S()), mid, tables.S(), objects, srcPath, dstPath, src, dst, more)
    ensures src.Ok? && dst.Ok? ==>
      Descend(tables.S(), ROOT, srcPath) == Some(src.value) && Descend(tables.S(), ROOT, dstPath) == Some(dst.value)
  {
    hide Keeps, Descend, Opens, OpenedAt, DirsAlong, OnPath, DiffersIn, NodesKept, Rooted;
    ghost var start := tables.S();
    src, touched := EnsureDirInode(tables, objects, srcPath);
    KeepsGrows(start, tables.S(), objects, touched);
    dst, mid, more := src, tables.S(), [];
    if src.Err? { return; }
    var changed;
    dst, changed := EnsureDirInode(tables, objects, dstPath);
    more := changed;
    KeepsTwice(start, mid, tables.S(), objects, touched, more);
    KeepsGrows(mid, tables.S(), objects, more);
    KeepsNodes(mid, tables.S(), objects, more);
    DescendGrows(mid, tables.S(), ROOT, srcPath);
    touched := touched + changed;
  }

  // What the move itself does, once it is planned.
  lemma PlannedMove(start: Db, db: Db, oldPath: Path, newPath: Path, src: InodeId, dst: InodeId, plan: MovePlan,
                    touched: seq<Edge>)
    requires Rooted(db) && PlainPath(oldPath) && PlainPath(newPath) && oldPath != [] && newPath != []
    requires Descend(db, ROOT, oldPath[..|oldPath| - 1]) == Some(src)
    requires Descend(db, ROOT, newPath[..|newPath| - 1]) == Some(dst)
    requires !IsDescendantPath(Text(newPath), Text(oldPath))
    requires PlanMove(db, db, db, src, oldPath[|oldPath| - 1], dst, newPath[|newPath| - 1]) == Ok(Some(plan))
    requires DiffersIn(start, db, set f | f in touched)
    ensures Movable(db, plan) && PlansPaths(db, plan, oldPath, newPath) && Applies(db, plan)
    ensures Rooted(Moved(db, plan)) && (Tree(db) ==> Tree(Moved(db, plan)))
    ensures DiffersIn(start, Moved(db, plan), set f | f in touched + MoveTouched(db, plan))
  {
    PlanNames(db, src, oldPath[|oldPath| - 1], dst, newPath[|newPath| - 1], plan);
    hide Tree, Rooted, Descend, IsDescendantPath, PlainPath, Movable, PlanMove, Applies, Moved, DiffersIn;
    PlannedMoveKeepsTree(db, oldPath, newPath, src, dst, plan);
    MovableApplies(db, plan);
    MoveAddsEdges(start, db, plan, touched);
  }

  lemma MovableApplies(db: Db, plan: MovePlan)
    requires Movable(db, plan)
    ensures Applies(db, plan)
  {
    hide Movable, Applies, Moved;
    MoveEffect(db, plan);
  }

  lemma MoveAddsEdges(start: Db, db: Db, plan: MovePlan, touched: seq<Edge>)
    requires DiffersIn(start, db, set f | f in touched) && Movable(db, plan)
    ensures DiffersIn(start, Moved(db, plan), set f | f in touched + MoveTouched(db, plan))
  {
    hide Movable, Moved, DiffersIn;
    MoveDiffersIn(db, plan);
    DiffersTwice(start, db, Moved(db, plan), set f | f in touched, set f | f in MoveTouched(db, plan));
    assert (set f | f in touched + MoveTouched(db, plan)) == (set f | f in touched) + set f | f in MoveTouched(db, plan);
  }

  // Two paths whose parents are one inode and whose names agree are one path.
  lemma SamePaths(db: Db, oldPath: Path, newPath: Path, src: InodeId, dst: InodeId)
    requires Rooted(db) && oldPath != [] && newPath != []
    requires Descend(db, ROOT, oldPath[..|oldPath| - 1]) == Some(src)
    requires Descend(db, ROOT, newPath[..|newPath| - 1]) == Some(dst)
    requires PlanMove(db, db, db, src, oldPath[|oldPath| - 1], dst, newPath[|newPath| - 1]) == Ok(None)
    ensures oldPath == newPath
  {
    var p, q := oldPath[..|oldPath| - 1], newPath[..|newPath| - 1];
    assert src == dst && oldPath[|oldPath| - 1] == newPath[|newPath| - 1];
    hide PlanMove, Descend, Rooted;
    DescentUnique(db, p, q);
    FrontAndLast(oldPath);
    FrontAndLast(newPath);
  }

  lemma FrontAndLast(path: Path)
    requires path != []
    ensures path == path[..|path| - 1] + [path[|path| - 1]]
  {
  }

  lemma PlanNames(db: Db, src: InodeId, srcName: Name, dst: InodeId, dstName: Name, plan: MovePlan)
    requires PlanMove(db, db, db, src, srcName, dst, dstName) == Ok(Some(plan))
    ensures plan.srcParent == src && plan.srcName == srcName && plan.dstParent == dst && plan.dstName == dstName
  {
  }

  lemma PlannedMoveKeepsTree(db: Db, oldPath: Path, newPath: Path, src: InodeId, dst: InodeId, plan: MovePlan)
    requires Rooted(db) && PlainPath(oldPath) && PlainPath(newPath) && oldPath != [] && newPath != []
    requires Descend(db, ROOT, oldPath[..|oldPath| - 1]) == Some(src)
    requires Descend(db, ROOT, newPath[..|newPath| - 1]) == Some(dst)
    requires !IsDescendantPath(Text(newPath), Text(oldPath))
    requires PlanMove(db, db, db, src, oldPath[|oldPath| - 1], dst, newPath[|newPath| - 1]) == Ok(Some(plan))
    ensures Movable(db, plan) && Rooted(Moved(db, plan)) && (Tree(db) ==> Tree(Moved(db, plan)))
  {
    hide Rooted, Tree, Descend, IsDescendantPath, PlainPath, BackPointers, Moved, Avoids;
    RootedBackPointers(db);
    assert Movable(db, plan);
    if plan.target.Inode? { PathsAreEnough(db, oldPath, newPath, src, dst, plan.target.id); }
    hide Movable, PlanMove;
    MoveKeepsRooted(db, plan);
    if Tree(db) { MoveKeepsTree(db, plan); }
  }

  lemma RootedBackPointers(db: Db)
    requires Rooted(db)
    ensures BackPointers(db)
  {
  }
}
