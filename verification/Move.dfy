// Moving a dentry: a plan made from reads at different moments, applied in one transaction that
// checks the revisions of both directories.
module Move {
  import opened Bytes
  import opened FsTypes
  import opened NamespaceState
  import opened Namespace

  datatype MovePlan = MovePlan(srcParent: InodeId, srcName: Name, dstParent: InodeId, dstName: Name,
                               srcRev: nat, dstRev: nat, target: DentryTarget)

  // handle_move_path up to the transaction.  The source directory, the destination directory and the
  // source row are read one after the other, so each may come from a later state of the tables.
  // A move of a name onto itself needs no plan.
  function PlanMove(srcSeen: Db, dstSeen: Db, rowSeen: Db,
                    srcParent: InodeId, srcName: Name, dstParent: InodeId, dstName: Name): Result<Option<MovePlan>, NsError>
  {
    if srcName == "" || dstName == "" then Err(InvalidName)
    else if srcParent == dstParent && srcName == dstName then Ok(None)
    else if srcParent !in srcSeen.nodes || dstParent !in dstSeen.nodes then Err(NotFound)
    else
      var srcDir, dstDir := srcSeen.nodes[srcParent], dstSeen.nodes[dstParent];
      if srcDir.Kind() != Dir || dstDir.Kind() != Dir then Err(NotFound)
      else if srcDir.readOnly || dstDir.readOnly then Err(ReadOnly)
      else
        match PlanMoveSource(rowSeen, srcParent, srcName)
        case Err(e) => Err(e)
        case Ok(target) =>
          if target.Inode? && target.id in rowSeen.nodes && rowSeen.nodes[target.id].Kind() == Dir && target.id == dstParent
          then Err(InvalidName)
          else Ok(Some(MovePlan(srcParent, srcName, dstParent, dstName, srcDir.Rev(), dstDir.Rev(), target)))
  }

  // plan_move_source
  function PlanMoveSource(db: Db, srcParent: InodeId, srcName: Name): Result<DentryTarget, NsError> {
    if (srcParent, srcName) !in db.dentries then Err(NotFound)
    else
      match db.dentries[(srcParent, srcName)].target
      case Tombstone => Err(NotFound)
      case Inode(id) => if id in db.nodes then Ok(Inode(id)) else Err(NotFound)
      case target => Ok(target)
  }

  // What a plan has checked: the names are there, both directories can be written, the source is something
  // to move, and a directory is not moved into itself.  Only a name moved onto itself needs no plan.
  lemma PlanChecks(srcSeen: Db, dstSeen: Db, rowSeen: Db,
                   srcParent: InodeId, srcName: Name, dstParent: InodeId, dstName: Name)
    ensures var r := PlanMove(srcSeen, dstSeen, rowSeen, srcParent, srcName, dstParent, dstName);
      (r == Ok(None) <==> srcName != "" && (srcParent, srcName) == (dstParent, dstName)) &&
      (r.Ok? && r.value.Some? ==>
        var plan := r.value.value;
        srcName != "" && dstName != "" && (srcParent, srcName) != (dstParent, dstName) &&
        Writable(srcSeen, srcParent) && Writable(dstSeen, dstParent) &&
        srcSeen.nodes[srcParent].Rev() == plan.srcRev && dstSeen.nodes[dstParent].Rev() == plan.dstRev &&
        RowAt(rowSeen, (srcParent, srcName)).Some? && RowAt(rowSeen, (srcParent, srcName)).value.target == plan.target &&
        plan.target != Tombstone && (plan.target.Inode? ==> plan.target.id in rowSeen.nodes) &&
        (plan.target == Inode(dstParent) ==> rowSeen.nodes[dstParent].Kind() != Dir))
  {
  }

  // What can be moved: an inode that is there, a link, or an object.
  predicate Movables(db: Db, e: Edge) {
    e in db.dentries &&
    match db.dentries[e].target
    case Inode(id) => id in db.nodes
    case SymLink(_) => true
    case Obj(_) => true
    case Tombstone => false
  }

  // Exactly when a move is planned.
  lemma PlanExists(srcSeen: Db, dstSeen: Db, rowSeen: Db,
                   srcParent: InodeId, srcName: Name, dstParent: InodeId, dstName: Name)
    ensures var r := PlanMove(srcSeen, dstSeen, rowSeen, srcParent, srcName, dstParent, dstName);
      r.Ok? && r.value.Some? <==>
        srcName != "" && dstName != "" && (srcParent, srcName) != (dstParent, dstName) &&
        Writable(srcSeen, srcParent) && Writable(dstSeen, dstParent) && Movables(rowSeen, (srcParent, srcName)) &&
        !(rowSeen.dentries[(srcParent, srcName)].target == Inode(dstParent) && rowSeen.nodes[dstParent].Kind() == Dir)
  {
  }

  predicate Writable(db: Db, dir: InodeId) {
    dir in db.nodes && db.nodes[dir].Kind() == Dir && !db.nodes[dir].readOnly
  }

  // Both directories are there with the revisions the plan saw.
  predicate Current(db: Db, plan: MovePlan) {
    plan.srcParent in db.nodes && plan.dstParent in db.nodes &&
    db.nodes[plan.srcParent].Rev() == plan.srcRev && db.nodes[plan.dstParent].Rev() == plan.dstRev
  }

  function DstRev(plan: MovePlan): nat {
    if plan.srcParent == plan.dstParent then plan.srcRev + 1 else plan.dstRev
  }

  // After the first half of the transaction: the source is a tombstone.
  function Halfway(db: Db, plan: MovePlan): Db {
    After(db, UpsertOp(db, plan.srcParent, plan.srcName, Tombstone, plan.srcRev))
  }

  // Whether the transaction goes through, and the tables after it: rolled back when it does not.
  predicate Applies(db: Db, plan: MovePlan) {
    Current(db, plan) && Check(db, UpsertOp(db, plan.srcParent, plan.srcName, Tombstone, plan.srcRev)).None? &&
    Check(Halfway(db, plan), UpsertOp(Halfway(db, plan), plan.dstParent, plan.dstName, plan.target, DstRev(plan))).None?
  }

  function Moved(db: Db, plan: MovePlan): Db {
    var mid := Halfway(db, plan);
    if Applies(db, plan) then After(mid, UpsertOp(mid, plan.dstParent, plan.dstName, plan.target, DstRev(plan))) else db
  }

  // apply_move_plan_txn
  method ApplyMove(tables: Tables, plan: MovePlan) returns (r: Result<(), NsError>)
    modifies tables
    ensures tables.S() == Moved(old(tables.S()), plan)
    ensures r.Ok? <==> Applies(old(tables.S()), plan)
  {
    hide After, Check, UpsertOp;
    var saved := tables.S();
    if plan.srcParent !in tables.nodes || plan.dstParent !in tables.nodes { return Err(NotFound); }
    if tables.nodes[plan.srcParent].Rev() != plan.srcRev || tables.nodes[plan.dstParent].Rev() != plan.dstRev {
      return Err(Conflict);
    }
    var cleared := tables.Upsert(plan.srcParent, plan.srcName, Tombstone, plan.srcRev);
    if cleared.Err? {
      tables.RollbackTo(saved);
      return Err(cleared.error);
    }
    var dstExpectedRev := if plan.srcParent == plan.dstParent then plan.srcRev + 1 else plan.dstRev;
    var put := tables.Upsert(plan.dstParent, plan.dstName, plan.target, dstExpectedRev);
    if put.Err? {
      tables.RollbackTo(saved);
      return Err(put.error);
    }
    return Ok(());
  }

  // ---- what a move does ----

  // The plan's target is what the source row holds now.
  ghost predicate TargetIsCurrent(db: Db, plan: MovePlan) {
    (plan.srcParent, plan.srcName) in db.dentries &&
    db.dentries[(plan.srcParent, plan.srcName)].target == plan.target && plan.target != Tombstone
  }

  // A plan whose revisions are still current names the target that is there now, however the
  // operations of others fell between its reads and its transaction.
  lemma PlanIsCurrent(db: Db, ops0: seq<NsOp>, ops1: seq<NsOp>, ops2: seq<NsOp>,
                      srcParent: InodeId, srcName: Name, dstParent: InodeId, dstName: Name)
    requires var dstSeen := RunOps(db, ops0); var rowSeen := RunOps(dstSeen, ops1);
      PlanMove(db, dstSeen, rowSeen, srcParent, srcName, dstParent, dstName).Ok? &&
      PlanMove(db, dstSeen, rowSeen, srcParent, srcName, dstParent, dstName).value.Some?
    ensures var dstSeen := RunOps(db, ops0); var rowSeen := RunOps(dstSeen, ops1);
      var plan := PlanMove(db, dstSeen, rowSeen, srcParent, srcName, dstParent, dstName).value.value;
      Current(RunOps(rowSeen, ops2), plan) ==> TargetIsCurrent(RunOps(rowSeen, ops2), plan)
  {
    var dstSeen := RunOps(db, ops0);
    var rowSeen := RunOps(dstSeen, ops1);
    hide RunOps;
    EqualRevsEqualRows(db, ops0, srcParent);
    EqualRevsEqualRows(dstSeen, ops1, srcParent);
    EqualRevsEqualRows(rowSeen, ops2, srcParent);
    var now := RunOps(rowSeen, ops2);
    assert Current(now, PlanMove(db, dstSeen, rowSeen, srcParent, srcName, dstParent, dstName).value.value) ==>
      RowAt(now, (srcParent, srcName)) == RowAt(rowSeen, (srcParent, srcName));
  }

  function Src(plan: MovePlan): Edge { (plan.srcParent, plan.srcName) }

  function Dst(plan: MovePlan): Edge { (plan.dstParent, plan.dstName) }

  // The row the move leaves at its destination: the old one's id if there was one, else a new id.
  function DstRow(db: Db, plan: MovePlan): Dentry {
    Dentry(if Dst(plan) in db.dentries then db.dentries[Dst(plan)].id else db.lastDentryId + 1, plan.target)
  }

  predicate AlreadyThere(db: Db, plan: MovePlan) {
    Dst(plan) in db.dentries && db.dentries[Dst(plan)].target == plan.target
  }

  // How many rows a move changes in dir.
  function RowsChanged(db: Db, plan: MovePlan, dir: InodeId): nat {
    (if dir == plan.srcParent then 1 else 0) + (if dir == plan.dstParent && !AlreadyThere(db, plan) then 1 else 0)
  }

  // The record of an inode after a move: the moved inode belongs to the destination row, one that the
  // destination row pointed to before belongs to none, revisions count changed rows; the rest stays.
  function MovedNode(db: Db, plan: MovePlan, x: InodeId): NodeRecord
    requires x in db.nodes
  {
    var node := db.nodes[x];
    var refBy :=
      if plan.target == Inode(x) then Some(DstRow(db, plan).id)
      else if Dst(plan) in db.dentries && db.dentries[Dst(plan)].target == Inode(x) then None
      else node.refBy;
    var n := RowsChanged(db, plan, x);
    node.(refBy := refBy, rev := if n == 0 then node.rev else Some(node.Rev() + n))
  }

  ghost predicate Movable(db: Db, plan: MovePlan) {
    BackPointers(db) && Current(db, plan) && TargetIsCurrent(db, plan) && Src(plan) != Dst(plan)
  }

  function TombstoneRow(db: Db, plan: MovePlan): Option<Dentry>
    requires Src(plan) in db.dentries
  {
    Some(Dentry(db.dentries[Src(plan)].id, Tombstone))
  }

  lemma HalfwayIs(db: Db, plan: MovePlan)
    requires Movable(db, plan)
    ensures Check(db, UpsertOp(db, plan.srcParent, plan.srcName, Tombstone, plan.srcRev)).None?
    ensures Halfway(db, plan) == Effect(db, Src(plan), TombstoneRow(db, plan))
    ensures BackPointers(Halfway(db, plan))
  {
    hide BackPointers, Effect;
    assert db.dentries[Src(plan)].target == plan.target && plan.target != Tombstone;
    MovableFree(db, plan);
    EffectKeepsBackPointers(db, Src(plan), TombstoneRow(db, plan));
  }

  lemma MovableFree(db: Db, plan: MovePlan)
    requires Movable(db, plan)
    ensures Src(plan).0 in db.nodes && Free(db, Src(plan), TombstoneRow(db, plan))
  {
    hide BackPointers;
  }

  // Nothing refers to the moved inode once its source row is a tombstone.
  lemma TargetIsFree(db: Db, plan: MovePlan)
    requires Movable(db, plan) && plan.target.Inode?
    ensures RefCheck(Halfway(db, plan), plan.target, DstRow(db, plan).id).None?
    ensures plan.target.id in Halfway(db, plan).nodes && Halfway(db, plan).nodes[plan.target.id].refBy.None?
  {
    HalfwayIs(db, plan);
    assert Points(db, Src(plan), plan.target.id, db.dentries[Src(plan)].id);
    hide Halfway;
    forall f | f in Halfway(db, plan).dentries ensures Halfway(db, plan).dentries[f].target != plan.target {
      if f != Src(plan) && db.dentries[f].target == plan.target { OneDentry(db, f, Src(plan), plan.target.id); }
    }
  }

  // What the second half finds at the destination.
  lemma HalfwayDst(db: Db, plan: MovePlan)
    requires Movable(db, plan)
    ensures RowAt(Halfway(db, plan), Dst(plan)) == RowAt(db, Dst(plan))
    ensures Halfway(db, plan).lastDentryId == db.lastDentryId
    ensures ParentCheck(Halfway(db, plan), plan.dstParent, DstRev(plan)).None?
  {
    HalfwayIs(db, plan);
    hide BackPointers, Halfway;
  }

  // An upsert in a directory of the revision named goes through if nobody refers to the target, and replaces the
  // row that is there or adds one, unless it is there already.
  lemma UpsertIs(db: Db, e: Edge, target: DentryTarget, rev: nat, row: Dentry)
    requires ParentCheck(db, e.0, rev).None?
    requires row == Dentry(if e in db.dentries then db.dentries[e].id else db.lastDentryId + 1, target)
    requires target.Inode? ==> RefCheck(db, target, row.id).None?
    ensures Check(db, UpsertOp(db, e.0, e.1, target, rev)).None?
    ensures After(db, UpsertOp(db, e.0, e.1, target, rev)) ==
      if e in db.dentries && db.dentries[e].target == target then db else Effect(db, e, Some(row))
  {
    hide ParentCheck, Effect;
    assert !target.Inode? ==> RefCheck(db, target, row.id).None?;
    hide RefCheck;
  }

  lemma DstCheck(db: Db, plan: MovePlan)
    requires Movable(db, plan)
    ensures Applies(db, plan)
    ensures Moved(db, plan) == if AlreadyThere(db, plan) then Halfway(db, plan)
      else Effect(Halfway(db, plan), Dst(plan), Some(DstRow(db, plan)))
    ensures !AlreadyThere(db, plan) ==> Free(Halfway(db, plan), Dst(plan), Some(DstRow(db, plan)))
  {
    HalfwayIs(db, plan);
    HalfwayDst(db, plan);
    if plan.target.Inode? { TargetIsFree(db, plan); }
    hide BackPointers, Halfway, RefCheck, ParentCheck, Effect, Check, After, UpsertOp;
    assert RowAt(Halfway(db, plan), Dst(plan)) == RowAt(db, Dst(plan));
    UpsertIs(Halfway(db, plan), Dst(plan), plan.target, DstRev(plan), DstRow(db, plan));
  }

  // A move whose revisions are current always goes through, and one whose revisions are not never does.
  // It moves the target that is there, leaves a tombstone, releases an inode it overwrites, and changes
  // no other row and nothing else about any inode.
  lemma MoveEffect(db: Db, plan: MovePlan)
    requires Movable(db, plan)
    ensures Applies(db, plan) && BackPointers(Moved(db, plan))
    ensures Moved(db, plan).dentries ==
      db.dentries[Src(plan) := TombstoneRow(db, plan).value][Dst(plan) := DstRow(db, plan)]
    ensures Moved(db, plan).nodes == map x | x in db.nodes :: MovedNode(db, plan, x)
  {
    HalfwayIs(db, plan);
    DstCheck(db, plan);
    hide Halfway, Applies, Moved;
    if !AlreadyThere(db, plan) {
      hide BackPointers, Effect;
      assert Dst(plan).0 in Halfway(db, plan).nodes by { HalfwayNodes(db, plan); }
      EffectKeepsBackPointers(Halfway(db, plan), Dst(plan), Some(DstRow(db, plan)));
    }
    MovedRows(db, plan);
    MovedNodes(db, plan);
  }

  lemma HalfwayNodes(db: Db, plan: MovePlan)
    requires Movable(db, plan)
    ensures Halfway(db, plan).nodes.Keys == db.nodes.Keys
  {
    HalfwayIs(db, plan);
    hide BackPointers, Halfway;
  }

  lemma MovedRows(db: Db, plan: MovePlan)
    requires Movable(db, plan)
    ensures Moved(db, plan).dentries ==
      db.dentries[Src(plan) := TombstoneRow(db, plan).value][Dst(plan) := DstRow(db, plan)]
  {
    HalfwayIs(db, plan);
    DstCheck(db, plan);
    hide BackPointers, Halfway, Applies, Moved, NodesAfter;
  }

  // The record of an inode after the two halves of the transaction.
  function TwiceNode(db: Db, plan: MovePlan, x: InodeId): NodeRecord
    requires x in db.nodes && Src(plan) in db.dentries
  {
    var mid := NodeAfter(db.nodes[x], x, plan.srcParent, Some(db.dentries[Src(plan)]), TombstoneRow(db, plan));
    if AlreadyThere(db, plan) then mid
    else NodeAfter(mid, x, plan.dstParent, RowAt(db, Dst(plan)), Some(DstRow(db, plan)))
  }

  // Who refers to an inode that one of the two rows targets.
  lemma MoveRefs(db: Db, plan: MovePlan, x: InodeId)
    requires Movable(db, plan) && x in db.nodes
    ensures plan.target == Inode(x) ==> db.nodes[x].refBy == Some(db.dentries[Src(plan)].id) && !AlreadyThere(db, plan)
    ensures Dst(plan) in db.dentries && db.dentries[Dst(plan)].target == Inode(x) ==>
      db.nodes[x].refBy == Some(db.dentries[Dst(plan)].id)
  {
    if plan.target == Inode(x) {
      assert Points(db, Src(plan), x, db.dentries[Src(plan)].id);
      if AlreadyThere(db, plan) { OneDentry(db, Src(plan), Dst(plan), x); }
    }
    if Dst(plan) in db.dentries && db.dentries[Dst(plan)].target == Inode(x) {
      assert Points(db, Dst(plan), x, db.dentries[Dst(plan)].id);
    }
  }

  lemma TwiceNodeIs(db: Db, plan: MovePlan, x: InodeId)
    requires Movable(db, plan) && x in db.nodes
    ensures TwiceNode(db, plan, x) == MovedNode(db, plan, x)
  {
    MoveRefs(db, plan, x);
    hide BackPointers;
  }

  lemma MovedIsTwice(db: Db, plan: MovePlan)
    requires Movable(db, plan)
    ensures Moved(db, plan).nodes == map x | x in db.nodes :: TwiceNode(db, plan, x)
  {
    HalfwayIs(db, plan);
    HalfwayDst(db, plan);
    DstCheck(db, plan);
    hide Halfway, Applies, Moved, BackPointers, NodeAfter, ParentCheck, Free;
  }

  lemma MovedNodes(db: Db, plan: MovePlan)
    requires Movable(db, plan)
    ensures Moved(db, plan).nodes == map x | x in db.nodes :: MovedNode(db, plan, x)
  {
    MovedIsTwice(db, plan);
    forall x | x in db.nodes ensures MovedNode(db, plan, x) == TwiceNode(db, plan, x) {
      TwiceNodeIs(db, plan, x);
    }
    hide Halfway, Applies, Moved, BackPointers, MovedNode, TwiceNode, NodeAfter;
  }

  // A move planned from reads between which others kept writing, and applied after they wrote more:
  // it goes through exactly if both directories have the revisions it saw, and then it is the move of
  // the target that is at the source at that moment.
  lemma MoveIsAtomic(db: Db, ops0: seq<NsOp>, ops1: seq<NsOp>, ops2: seq<NsOp>,
                     srcParent: InodeId, srcName: Name, dstParent: InodeId, dstName: Name, plan: MovePlan)
    requires BackPointers(db) && FreshAllocs(ops0) && FreshAllocs(ops1) && FreshAllocs(ops2)
    requires PlanMove(db, RunOps(db, ops0), RunOps(RunOps(db, ops0), ops1), srcParent, srcName, dstParent, dstName) == Ok(Some(plan))
    ensures var now := RunOps(RunOps(RunOps(db, ops0), ops1), ops2);
      (Applies(now, plan) <==> Current(now, plan)) && (Current(now, plan) ==> Movable(now, plan))
  {
    var dstSeen := RunOps(db, ops0);
    var rowSeen := RunOps(dstSeen, ops1);
    var now := RunOps(rowSeen, ops2);
    PlanIsCurrent(db, ops0, ops1, ops2, srcParent, srcName, dstParent, dstName);
    hide RunOps, BackPointers;
    BackPointersAlways(db, ops0);
    BackPointersAlways(dstSeen, ops1);
    BackPointersAlways(rowSeen, ops2);
    assert Src(plan) != Dst(plan);
    hide PlanMove, TargetIsCurrent;
    if Current(now, plan) { MoveEffect(now, plan); }
  }
}
