// Moves of several clients at once.  The service compares revisions inside its transaction, but paths are
// compared by the client before: exactly when the tree has changed so that the destination is below what is
// moved, the move closes a cycle.
module InterleavedMoves {
  import opened Bytes
  import opened FsTypes
  import opened Resolver
  import opened NamespaceState
  import opened Move
  import opened MoveTree
  import opened ClientMove

  // A move planned from reads between which others kept writing, and applied after they wrote more, keeps the
  // inodes free of cycles exactly if it is refused, or the destination then avoids what is moved.
  lemma MoveAfterAnything(db: Db, ops0: seq<NsOp>, ops1: seq<NsOp>, ops2: seq<NsOp>,
                          srcParent: InodeId, srcName: Name, dstParent: InodeId, dstName: Name, plan: MovePlan)
    requires BackPointers(db) && FreshAllocs(ops0) && FreshAllocs(ops1) && FreshAllocs(ops2)
    requires PlanMove(db, RunOps(db, ops0), RunOps(RunOps(db, ops0), ops1), srcParent, srcName, dstParent, dstName) == Ok(Some(plan))
    requires Acyclic(RunOps(RunOps(RunOps(db, ops0), ops1), ops2))
    ensures var now := RunOps(RunOps(RunOps(db, ops0), ops1), ops2);
      Acyclic(Moved(now, plan)) <==> (Current(now, plan) ==> MovesOutside(now, plan))
  {
    var now := RunOps(RunOps(RunOps(db, ops0), ops1), ops2);
    NotCurrentNotMoved(now, plan);
    hide RunOps, BackPointers, PlanMove, Current, Movable, Applies, Moved, MovesOutside, Acyclic;
    MoveIsAtomic(db, ops0, ops1, ops2, srcParent, srcName, dstParent, dstName, plan);
    if Current(now, plan) { MoveKeepsAcyclic(now, plan); }
  }

  lemma NotCurrentNotMoved(db: Db, plan: MovePlan)
    ensures !Current(db, plan) ==> Moved(db, plan) == db
  {
    hide After, Check, UpsertOp;
  }

  // ---- two clients ----

  // Directories /a and /b under the root.
  const BEFORE := Db(map[1 := NodeRecord(None, false, None, DirNormal, Some(0)),
                         2 := NodeRecord(Some(1), false, None, DirNormal, Some(0)),
                         3 := NodeRecord(Some(2), false, None, DirNormal, Some(0))],
                     map[(1, "a") := Dentry(1, Inode(2)), (1, "b") := Dentry(2, Inode(3))], 2)

  // One client moves /a to /b/a, another moves /b to /a/b.
  const FIRST := MovePlan(1, "a", 3, "a", 0, 0, Inode(2))
  const SECOND := MovePlan(1, "b", 2, "b", 1, 0, Inode(3))

  function Between(): Db { Moved(BEFORE, FIRST) }

  lemma Names()
    ensures "a" != "b"
  {
    assert "a"[0] != "b"[0];
  }

  lemma BeforePoints()
    ensures BackPointers(BEFORE)
  {
    Names();
    assert Points(BEFORE, (1, "a"), 2, 1) && Points(BEFORE, (1, "b"), 3, 2);
  }

  lemma OnlyChildren(e: Edge)
    ensures ChildInode(BEFORE, e).Some? ==> e.0 == 1 && ChildInode(BEFORE, e) != Some(1)
  {
  }

  lemma {:induction false} BeforeIsShallow(x: InodeId, p: Path)
    requires p != []
    ensures Descend(BEFORE, x, p).Some? ==> x == 1 && Descend(BEFORE, x, p) != Some(1)
    decreases |p|
  {
    var front := p[..|p| - 1];
    if front != [] { BeforeIsShallow(x, front); }
    if Descend(BEFORE, x, front).Some? { OnlyChildren((Descend(BEFORE, x, front).value, p[|p| - 1])); }
  }

  lemma BeforeIsTree()
    ensures Tree(BEFORE)
  {
    BeforePoints();
    hide BackPointers, Descend;
    forall x: InodeId, p | p != [] ensures Descend(BEFORE, x, p) != Some(x) {
      BeforeIsShallow(x, p);
    }
  }

  // What the second client finds before the first one moves: both directories, and paths it may move between.
  lemma SecondClientChecks()
    ensures Descend(BEFORE, ROOT, []) == Some(1) && Descend(BEFORE, ROOT, ["a"]) == Some(2)
    ensures !IsDescendantPath(Text(["a", "b"]), Text(["b"]))
  {
    Names();
    assert ["a"][..0] == [];
    assert Plain("a") && Plain("b");
    DescendantIsPrefix(["a", "b"], ["b"]);
    hide IsDescendantPath;
    assert ["a", "b"][0] != ["b"][0];
  }

  lemma FirstPlanned()
    ensures PlanMove(BEFORE, BEFORE, BEFORE, 1, "a", 3, "a") == Ok(Some(FIRST)) && Movable(BEFORE, FIRST)
  {
    BeforePoints();
    hide BackPointers;
    Names();
  }

  lemma FirstMovesOutside()
    ensures MovesOutside(BEFORE, FIRST)
  {
    hide Descend;
    forall w ensures Descend(BEFORE, 2, w) != Some(3) {
      if w == [] { NoSteps(BEFORE, 2); } else { BeforeIsShallow(2, w); }
    }
  }

  lemma NoSteps(db: Db, x: InodeId)
    ensures Descend(db, x, []) == Some(x)
  {
  }

  lemma FirstMove()
    ensures Movable(BEFORE, FIRST) && Applies(BEFORE, FIRST) && Tree(Between()) && BackPointers(Between())
  {
    BeforeIsTree();
    FirstPlanned();
    FirstMovesOutside();
    hide Movable, MovesOutside, Tree, Applies, Moved, BackPointers, Descend, PlanMove;
    MoveEffect(BEFORE, FIRST);
    MoveKeepsTree(BEFORE, FIRST);
  }

  // The tables between the two moves.
  lemma BetweenIs()
    ensures Between().dentries == map[(1, "a") := Dentry(1, Tombstone), (1, "b") := Dentry(2, Inode(3)), (3, "a") := Dentry(3, Inode(2))]
    ensures Between().nodes == map[1 := NodeRecord(None, false, None, DirNormal, Some(1)),
                                   2 := NodeRecord(Some(3), false, None, DirNormal, Some(0)),
                                   3 := NodeRecord(Some(2), false, None, DirNormal, Some(1))]
  {
    Names();
    FirstMove();
    hide Movable, Tree, Applies, Moved, BackPointers, PlanMove;
    MoveEffect(BEFORE, FIRST);
  }

  lemma SecondPlanned()
    ensures PlanMove(Between(), Between(), Between(), 1, "b", 2, "b") == Ok(Some(SECOND)) && Movable(Between(), SECOND)
  {
    Names();
    FirstMove();
    BetweenIs();
    hide Tree, Applies, Moved, BackPointers, Between;
  }

  lemma BelowTarget()
    ensures !MovesOutside(Between(), SECOND)
  {
    BetweenIs();
    hide Between;
    assert ["a"][..0] == [];
    NoSteps(Between(), 3);
    assert Descend(Between(), 3, ["a"]) == Some(2);
  }

  lemma SecondMove()
    ensures Applies(Between(), SECOND) && !Tree(Moved(Between(), SECOND))
    ensures var db2 := Moved(Between(), SECOND);
      ChildInode(db2, (2, "b")) == Some(3) && ChildInode(db2, (3, "a")) == Some(2) &&
      ChildInode(db2, (1, "a")).None? && ChildInode(db2, (1, "b")).None?
  {
    Names();
    FirstMove();
    BetweenIs();
    SecondPlanned();
    BelowTarget();
    hide Tree, Applies, Moved, BackPointers, PlanMove, Movable, MovesOutside, Between;
    MoveEffect(Between(), SECOND);
    MoveKeepsTree(Between(), SECOND);
  }

  // From a tree: the second client finds its directories and passes the comparison of paths, then the first
  // client moves, keeping a tree, and then the service plans and accepts the second move on current revisions.
  // Each of the two directories ends up below the other, and neither below the root.
  lemma InterleavedMovesCloseCycle()
    ensures Tree(BEFORE) && Descend(BEFORE, ROOT, []) == Some(1) && Descend(BEFORE, ROOT, ["a"]) == Some(2)
    ensures !IsDescendantPath(Text(["a", "b"]), Text(["b"]))
    ensures PlanMove(BEFORE, BEFORE, BEFORE, 1, "a", 3, "a") == Ok(Some(FIRST)) && Applies(BEFORE, FIRST)
    ensures var db := Moved(BEFORE, FIRST);
      Tree(db) && PlanMove(db, db, db, 1, "b", 2, "b") == Ok(Some(SECOND)) && Applies(db, SECOND) &&
      var db2 := Moved(db, SECOND);
      !Tree(db2) && ChildInode(db2, (2, "b")) == Some(3) && ChildInode(db2, (3, "a")) == Some(2) &&
      ChildInode(db2, (1, "a")).None? && ChildInode(db2, (1, "b")).None?
  {
    hide Tree, Descend, IsDescendantPath, PlanMove, Applies, Moved, Movable, BackPointers, ChildInode;
    BeforeIsTree();
    SecondClientChecks();
    FirstPlanned();
    FirstMove();
    SecondPlanned();
    SecondMove();
  }
}
