// Why client moves keep the inodes a tree: directories are reached by walking upper dentries from the
// root, and a move below the moved path is refused by comparing paths.
module MoveTree {
  import opened Bytes
  import opened FsTypes
  import opened Resolver
  import opened NamespaceState
  import opened Move
  import opened CacheCoherence

  // The inode reached from x by following dentries that name inodes.
  ghost function Descend(db: Db, x: InodeId, path: Path): Option<InodeId> {
    if path == [] then Some(x)
    else
      var dir := Descend(db, x, path[..|path| - 1]);
      if dir.Some? then ChildInode(db, (dir.value, path[|path| - 1])) else None
  }

  function ChildInode(db: Db, e: Edge): Option<InodeId> {
    if e in db.dentries && db.dentries[e].target.Inode? then Some(db.dentries[e].target.id) else None
  }

  // No inode is below itself.
  ghost predicate Acyclic(db: Db) {
    forall x: InodeId, p :: p != [] ==> Descend(db, x, p) != Some(x)
  }

  // Back-pointers are right, and the root is an inode no dentry refers to.
  ghost predicate Rooted(db: Db) {
    BackPointers(db) && ROOT in db.nodes && db.nodes[ROOT].refBy.None?
  }

  // And no inode is below itself.
  ghost predicate Tree(db: Db) {
    Rooted(db) && Acyclic(db)
  }

  // Then every inode has at most one incoming dentry, and the root has none.
  lemma RootedHasUniqueParents(db: Db)
    requires Rooted(db)
    ensures UniqueParents(db)
  {
    forall e, f | e in db.dentries && f in db.dentries && SameInode(db.dentries[e], db.dentries[f]) ensures e == f {
      OneDentry(db, e, f, db.dentries[e].target.id);
    }
    forall e | e in db.dentries ensures db.dentries[e].target != Inode(ROOT) {
      if db.dentries[e].target == Inode(ROOT) { TargetIsReferred(db, e, ROOT); }
    }
    hide BackPointers;
  }

  lemma TargetIsReferred(db: Db, e: Edge, x: InodeId)
    requires BackPointers(db) && e in db.dentries && db.dentries[e].target == Inode(x)
    ensures x in db.nodes && db.nodes[x].refBy == Some(db.dentries[e].id)
  {
    assert Points(db, e, x, db.dentries[e].id);
  }

  lemma {:induction false} DescendAppend(db: Db, x: InodeId, p: Path, q: Path)
    requires Descend(db, x, p).Some?
    ensures Descend(db, x, p + q) == Descend(db, Descend(db, x, p).value, q)
    decreases |q|
  {
    if q == [] {
      assert p + q == p;
    } else {
      assert (p + q)[..|p + q| - 1] == p + q[..|q| - 1];
      DescendAppend(db, x, p, q[..|q| - 1]);
    }
  }

  // Chains are descents from the root.
  lemma {:induction false} ChainIsDescend(db: Db, path: Path)
    ensures Chain(db, path).Some? <==> Descend(db, ROOT, path).Some?
    ensures Chain(db, path).Some? ==> Descend(db, ROOT, path) == Some(End(db, path))
    decreases |path|
  {
    if path != [] { ChainIsDescend(db, path[..|path| - 1]); }
  }

  // ---- adding one edge ----

  // e leads to x now; every other edge to an inode is as it was, except that edges to x may be gone.
  ghost predicate Rewired(db: Db, db2: Db, e: Edge, x: InodeId) {
    ChildInode(db2, e) == Some(x) &&
    forall f :: f != e ==>
      ChildInode(db2, f) == ChildInode(db, f) || (ChildInode(db2, f) == None && ChildInode(db, f) == Some(x))
  }

  // A descent in the new graph is an old one, or goes through the new edge: then its start is an
  // ancestor of e's directory and its end is below x.
  ghost predicate Through(db: Db, e: Edge, x: InodeId, start: InodeId, end: InodeId) {
    exists p, q :: Descend(db, start, p) == Some(e.0) && Descend(db, x, q) == Some(end)
  }

  lemma {:induction false} DescendRewired(db: Db, db2: Db, e: Edge, x: InodeId, start: InodeId, path: Path)
    requires Rewired(db, db2, e, x) && Descend(db2, start, path).Some?
    ensures Descend(db, start, path) == Descend(db2, start, path) ||
      Through(db, e, x, start, Descend(db2, start, path).value)
    decreases |path|
  {
    if path != [] {
      var front, name := path[..|path| - 1], path[|path| - 1];
      DescendRewired(db, db2, e, x, start, front);
      var dir := Descend(db2, start, front).value;
      var end := Descend(db2, start, path).value;
      if (dir, name) == e {
        var p := front;
        if Descend(db, start, front) != Some(dir) {
          var p0, q0 :| Descend(db, start, p0) == Some(e.0) && Descend(db, x, q0) == Some(dir);
          p := p0;
        }
        assert Descend(db, start, p) == Some(e.0) && Descend(db, x, []) == Some(end);
      } else if Descend(db, start, front) != Some(dir) {
        var p, q :| Descend(db, start, p) == Some(e.0) && Descend(db, x, q) == Some(dir);
        assert (q + [name])[..|q|] == q;
        assert Descend(db, x, q + [name]) == Some(end);
      }
    }
  }

  // dir is not at or below x.
  ghost predicate Avoids(db: Db, x: InodeId, dir: InodeId) {
    forall w :: Descend(db, x, w) != Some(dir)
  }

  // A new edge closes no cycle exactly if its directory is not at or below its target.
  lemma RewireKeepsAcyclic(db: Db, db2: Db, e: Edge, x: InodeId)
    requires Acyclic(db) && Rewired(db, db2, e, x)
    ensures Acyclic(db2) <==> Avoids(db, x, e.0)
  {
    if Avoids(db, x, e.0) {
      forall y: InodeId, p | p != [] ensures Descend(db2, y, p) != Some(y) {
        if Descend(db2, y, p) == Some(y) {
          DescendRewired(db, db2, e, x, y, p);
          if Through(db, e, x, y, y) { ThroughJoins(db, e, x, y); }
        }
      }
    } else {
      var w :| Descend(db, x, w) == Some(e.0);
      RewireClosesCycle(db, db2, e, x, w);
    }
  }

  // The way from the target to the directory is still there, and the new edge leads back.
  lemma RewireClosesCycle(db: Db, db2: Db, e: Edge, x: InodeId, w: Path)
    requires Acyclic(db) && Rewired(db, db2, e, x) && Descend(db, x, w) == Some(e.0)
    ensures !Acyclic(db2)
  {
    DescendKept(db, db2, e, x, w, |w|);
    assert w[..|w|] == w;
    assert (w + [e.1])[..|w|] == w;
    assert Descend(db2, x, w + [e.1]) == Some(x);
  }

  // It passes neither the new edge nor an edge to its own start.
  lemma {:induction false} DescendKept(db: Db, db2: Db, e: Edge, x: InodeId, w: Path, k: nat)
    requires Acyclic(db) && Rewired(db, db2, e, x) && Descend(db, x, w) == Some(e.0) && k <= |w|
    ensures Descend(db, x, w[..k]).Some? && Descend(db2, x, w[..k]) == Descend(db, x, w[..k])
    decreases k
  {
    DescendPrefix(db, x, w, k);
    if k > 0 {
      assert w[..k][..k - 1] == w[..k - 1];
      DescendKept(db, db2, e, x, w, k - 1);
      var dir := Descend(db, x, w[..k - 1]).value;
      if (dir, w[k - 1]) == e {
        assert w == w[..k - 1] + w[k - 1..];
        DescendAppend(db, x, w[..k - 1], w[k - 1..]);
      }
    }
  }

  lemma {:induction false} DescendPrefix(db: Db, x: InodeId, w: Path, k: nat)
    requires Descend(db, x, w).Some? && k <= |w|
    ensures Descend(db, x, w[..k]).Some?
    decreases |w|
  {
    if k == |w| {
      assert w[..k] == w;
    } else {
      assert w[..|w| - 1][..k] == w[..k];
      DescendPrefix(db, x, w[..|w| - 1], k);
    }
  }

  lemma ThroughJoins(db: Db, e: Edge, x: InodeId, y: InodeId)
    requires Through(db, e, x, y, y)
    ensures !Avoids(db, x, e.0)
  {
    var p, q :| Descend(db, y, p) == Some(e.0) && Descend(db, x, q) == Some(y);
    DescendAppend(db, x, q, p);
  }

  // With no new edge to an inode, nothing is below anything it was not below before.
  lemma FewerKeepsAcyclic(db: Db, db2: Db)
    requires Acyclic(db)
    requires forall f :: ChildInode(db2, f).Some? ==> ChildInode(db2, f) == ChildInode(db, f)
    ensures Acyclic(db2)
  {
    forall y: InodeId, p | p != [] ensures Descend(db2, y, p) != Some(y) {
      DescendFewer(db, db2, y, p);
    }
  }

  lemma {:induction false} DescendFewer(db: Db, db2: Db, start: InodeId, path: Path)
    requires forall f :: ChildInode(db2, f).Some? ==> ChildInode(db2, f) == ChildInode(db, f)
    ensures Descend(db2, start, path).Some? ==> Descend(db, start, path) == Descend(db2, start, path)
    decreases |path|
  {
    if path != [] { DescendFewer(db, db2, start, path[..|path| - 1]); }
  }

  // ---- a move keeps the tree ----

  lemma MoveKeepsRooted(db: Db, plan: MovePlan)
    requires Rooted(db) && Movable(db, plan)
    ensures Rooted(Moved(db, plan))
  {
    MoveEffect(db, plan);
    RootStaysUnreferred(db, plan);
    hide Moved, BackPointers, MovedNode, Movable;
  }

  // What is moved is not a directory at or above the destination.
  ghost predicate MovesOutside(db: Db, plan: MovePlan) {
    plan.target.Inode? ==> Avoids(db, plan.target.id, plan.dstParent)
  }

  // A move keeps the tree exactly if it moves nothing to a place at or below itself.
  lemma MoveKeepsTree(db: Db, plan: MovePlan)
    requires Tree(db) && Movable(db, plan)
    ensures Tree(Moved(db, plan)) <==> MovesOutside(db, plan)
  {
    MoveKeepsRooted(db, plan);
    MoveKeepsAcyclic(db, plan);
    hide Moved, Rooted, Acyclic, MovesOutside, Movable;
  }

  lemma MoveKeepsAcyclic(db: Db, plan: MovePlan)
    requires Acyclic(db) && Movable(db, plan)
    ensures Acyclic(Moved(db, plan)) <==> MovesOutside(db, plan)
  {
    MovedRows(db, plan);
    MoveRewires(db, Moved(db, plan), plan);
    hide Moved, Movable, Acyclic, Avoids, Rewired;
    if plan.target.Inode? {
      RewireKeepsAcyclic(db, Moved(db, plan), Dst(plan), plan.target.id);
    } else {
      FewerKeepsAcyclic(db, Moved(db, plan));
    }
  }

  lemma MoveRewires(db: Db, db2: Db, plan: MovePlan)
    requires Src(plan) in db.dentries && db.dentries[Src(plan)].target == plan.target && Src(plan) != Dst(plan)
    requires db2.dentries == db.dentries[Src(plan) := TombstoneRow(db, plan).value][Dst(plan) := DstRow(db, plan)]
    ensures plan.target.Inode? ==> Rewired(db, db2, Dst(plan), plan.target.id)
    ensures !plan.target.Inode? ==> forall f :: ChildInode(db2, f).Some? ==> ChildInode(db2, f) == ChildInode(db, f)
  {
  }

  // ---- bare operations ----

  // An accepted change points a dentry only at an inode its directory is not at or below.
  ghost predicate ClosesNoCycle(db: Db, op: NsOp) {
    Check(db, op).None? && Changes(db, op) && NewRow(db, op).Some? && NewRow(db, op).value.target.Inode? ==>
      Avoids(db, NewRow(db, op).value.target.id, EdgeOf(op).0)
  }

  lemma OpKeepsAcyclic(db: Db, op: NsOp)
    requires Acyclic(db)
    ensures Acyclic(After(db, op)) <==> ClosesNoCycle(db, op)
  {
    OpRewires(db, op);
    hide After, Check, Changes, NewRow, Acyclic, Avoids, Rewired;
    if Check(db, op).None? && Changes(db, op) && NewRow(db, op).Some? && NewRow(db, op).value.target.Inode? {
      RewireKeepsAcyclic(db, After(db, op), EdgeOf(op), NewRow(db, op).value.target.id);
    } else {
      FewerKeepsAcyclic(db, After(db, op));
    }
  }

  lemma OpRewires(db: Db, op: NsOp)
    ensures if Check(db, op).None? && Changes(db, op) && NewRow(db, op).Some? && NewRow(db, op).value.target.Inode?
            then Rewired(db, After(db, op), EdgeOf(op), NewRow(db, op).value.target.id)
            else forall f :: ChildInode(After(db, op), f).Some? ==> ChildInode(After(db, op), f) == ChildInode(db, f)
  {
    hide NodesAfter;
  }

  lemma RootStaysUnreferred(db: Db, plan: MovePlan)
    requires Rooted(db) && Movable(db, plan)
    ensures MovedNode(db, plan, ROOT).refBy.None?
  {
    if plan.target == Inode(ROOT) { TargetIsReferred(db, Src(plan), ROOT); }
  }

  // If the destination directory is reached from the root by a path that does not go through the
  // source, then it is not at or below the moved inode.
  lemma OutsideAvoids(db: Db, oldPath: Path, dstPath: Path, x: InodeId)
    requires Rooted(db) && Descend(db, ROOT, oldPath) == Some(x) && Descend(db, ROOT, dstPath).Some?
    requires !(oldPath <= dstPath)
    ensures Avoids(db, x, Descend(db, ROOT, dstPath).value)
  {
    RootedHasUniqueParents(db);
    forall w ensures Descend(db, x, w) != Descend(db, ROOT, dstPath) {
      DescendAppend(db, ROOT, oldPath, w);
      if Descend(db, x, w) == Descend(db, ROOT, dstPath) {
        ChainIsDescend(db, oldPath + w);
        ChainIsDescend(db, dstPath);
        ChainUnique(db, oldPath + w, dstPath);
      }
    }
  }

  // ---- comparing paths ----

  // The text of a normalized path.
  function Text(path: Path): string {
    if path == [] then "/" else Join(path)
  }

  // str::trim_end_matches('/')
  function TrimEnd(s: string): string {
    if s != "" && s[|s| - 1] == '/' then TrimEnd(s[..|s| - 1]) else s
  }

  // FsMetaClient::is_descendant_path
  predicate IsDescendantPath(path: string, ancestor: string) {
    var p, a := TrimEnd(path), TrimEnd(ancestor);
    a != "" && p != a && a <= p && |p| > |a| && p[|a|] == '/'
  }

  lemma TrimText(path: Path)
    requires PlainPath(path)
    ensures TrimEnd(Text(path)) == Join(path)
  {
    if path == [] {
      assert "/"[..0] == "";
    } else {
      var last := path[|path| - 1];
      assert Plain(last);
      assert Join(path)[|Join(path)| - 1] == last[|last| - 1];
    }
  }

  lemma {:induction false} JoinAppend(p: Path, q: Path)
    ensures Join(p + q) == Join(p) + Join(q)
    decreases |q|
  {
    if q == [] {
      assert p + q == p;
    } else {
      assert (p + q)[..|p + q| - 1] == p + q[..|q| - 1];
      JoinAppend(p, q[..|q| - 1]);
    }
  }

  lemma {:induction false} SplitJoin(path: Path)
    requires PlainPath(path)
    ensures SplitSlash(Join(path)) == [""] + path
  {
    if path != [] {
      var front, last := path[..|path| - 1], path[|path| - 1];
      SplitJoin(front);
      SplitLast(Join(front), last);
      assert [""] + front + [last] == [""] + path;
    }
  }

  lemma BelowIsDescendant(p: Path, a: Path)
    requires PlainPath(p) && PlainPath(a) && a != [] && a <= p && a != p
    ensures IsDescendantPath(Text(p), Text(a))
  {
    TrimText(p);
    TrimText(a);
    hide TrimEnd, Text;
    var q := p[|a|..];
    assert p == a + q;
    JoinAppend(a, q);
    JoinIsAbsolute(a);
    JoinIsAbsolute(q);
    hide Join;
    assert Join(p)[|Join(a)|] == Join(q)[0];
  }

  lemma TailParts(p: Path, a: Path, more: Path)
    requires [""] + p == ([""] + a) + more && more != []
    ensures a <= p && a != p
  {
    assert p == ([""] + p)[1..] && (([""] + a) + more)[1..] == a + more;
  }

  lemma DescendantIsBelow(p: Path, a: Path)
    requires PlainPath(p) && PlainPath(a) && IsDescendantPath(Text(p), Text(a))
    ensures a != [] && a <= p && a != p
  {
    TrimText(p);
    TrimText(a);
    hide TrimEnd, Text;
    SplitJoin(p);
    SplitJoin(a);
    hide PlainPath;
    var t := Join(p)[|Join(a)| + 1..];
    assert Join(p) == Join(a) + "/" + t;
    SplitAt(Join(a), t);
    var more := SplitSlash(t);
    hide SplitSlash;
    TailParts(p, a, more);
  }

  // Comparing texts with the separator is comparing component lists.
  lemma DescendantIsPrefix(p: Path, a: Path)
    requires PlainPath(p) && PlainPath(a)
    ensures IsDescendantPath(Text(p), Text(a)) <==> a != [] && a <= p && a != p
  {
    if a != [] && a <= p && a != p { BelowIsDescendant(p, a); }
    if IsDescendantPath(Text(p), Text(a)) { DescendantIsBelow(p, a); }
    hide IsDescendantPath;
  }
}
