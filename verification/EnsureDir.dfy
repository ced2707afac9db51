// The client's way to a directory: walking a path from the root, and making the directories that are missing.
module EnsureDir {
  import opened Bytes
  import opened FsTypes
  import opened Resolver
  import opened NamespaceState
  import opened Namespace
  import opened Move
  import opened MoveTree
  import opened CacheCoherence
  import opened TouchedEdges

  const CLIENT_SYMLINK_COUNT := 40

  // Edges to inodes stay.
  ghost predicate Grows(db: Db, db2: Db) {
    forall f :: ChildInode(db, f).Some? ==> ChildInode(db2, f) == ChildInode(db, f)
  }

  lemma {:induction false} DescendGrows(db: Db, db2: Db, x: InodeId, path: Path)
    requires Grows(db, db2) && Descend(db, x, path).Some?
    ensures Descend(db2, x, path) == Descend(db, x, path)
    decreases |path|
  {
    if path != [] { DescendGrows(db, db2, x, path[..|path| - 1]); }
  }

  // ---- a new directory under a parent ----

  ghost predicate NoRows(db: Db, dir: InodeId) {
    forall e :: e in db.dentries ==> e.0 != dir
  }

  lemma NewInodeAvoids(db: Db, id: InodeId, dir: InodeId)
    requires NoRows(db, id) && id != dir
    ensures Avoids(db, id, dir)
  {
    forall w ensures Descend(db, id, w) != Some(dir) {
      OnlyItself(db, id, w);
    }
  }

  lemma {:induction false} OnlyItself(db: Db, id: InodeId, w: Path)
    requires NoRows(db, id)
    ensures Descend(db, id, w) == if w == [] then Some(id) else None
    decreases |w|
  {
    if w != [] { OnlyItself(db, id, w[..|w| - 1]); }
  }

  // The transaction that allocates an inode and points a dentry at it.
  function WithDir(db: Db, node: NodeRecord, parent: InodeId, name: Name, rev: nat): Db {
    var mid := After(db, AllocOp(0, node));
    After(mid, UpsertOp(mid, parent, name, Inode(NextInode(db.nodes)), rev))
  }

  predicate DirAccepted(db: Db, node: NodeRecord, parent: InodeId, name: Name, rev: nat) {
    var mid := After(db, AllocOp(0, node));
    Check(mid, UpsertOp(mid, parent, name, Inode(NextInode(db.nodes)), rev)).None?
  }

  // It keeps every edge to an inode and adds the one to the new directory.
  lemma NewDirGrows(db: Db, node: NodeRecord, parent: InodeId, name: Name, rev: nat)
    requires ChildInode(db, (parent, name)).None? && DirAccepted(db, node, parent, name, rev)
    ensures Grows(db, WithDir(db, node, parent, name, rev))
    ensures ChildInode(WithDir(db, node, parent, name, rev), (parent, name)) == Some(NextInode(db.nodes))
  {
    var id, mid := NextInode(db.nodes), After(db, AllocOp(0, node));
    assert mid.dentries == db.dentries;
    hide After, Check, NextInode;
    UpsertRewires(mid, parent, name, id, rev);
  }

  // Allocating an inode keeps back-pointers, the root and the tree; nothing is below the new inode.
  lemma AllocKeepsTree(db: Db, node: NodeRecord)
    requires Rooted(db) && node.refBy.None?
    ensures var mid := After(db, AllocOp(0, node));
      Rooted(mid) && NoRows(mid, NextInode(db.nodes)) && (Tree(db) ==> Tree(mid))
    ensures NextInode(db.nodes) != ROOT
  {
    var id, mid := NextInode(db.nodes), After(db, AllocOp(0, node));
    AfterKeepsBackPointers(db, AllocOp(0, node));
    assert NoRows(mid, id);
    assert mid.dentries == db.dentries && ROOT in mid.nodes && mid.nodes[ROOT].refBy.None?;
    hide BackPointers, Acyclic, NextInode, After, Check;
    if Acyclic(db) { FewerKeepsAcyclic(db, mid); }
  }

  // So does the whole transaction.
  lemma NewDirKeepsTree(db: Db, node: NodeRecord, parent: InodeId, name: Name, rev: nat)
    requires Rooted(db) && node.refBy.None? && parent in db.nodes
    requires ChildInode(db, (parent, name)).None? && DirAccepted(db, node, parent, name, rev)
    ensures Rooted(WithDir(db, node, parent, name, rev))
    ensures Tree(db) ==> Tree(WithDir(db, node, parent, name, rev))
  {
    var id, mid := NextInode(db.nodes), After(db, AllocOp(0, node));
    assert mid.dentries == db.dentries;
    hide After, Check, Rooted, Tree;
    AllocKeepsTree(db, node);
    hide NextInode;
    NewInodeAvoids(mid, id, parent);
    UpsertKeepsTree(mid, parent, name, id, rev);
  }

  lemma UpsertKeepsTree(db: Db, parent: InodeId, name: Name, id: InodeId, rev: nat)
    requires Rooted(db) && id != ROOT && Avoids(db, id, parent)
    requires Check(db, UpsertOp(db, parent, name, Inode(id), rev)).None? && ChildInode(db, (parent, name)).None?
    ensures Rooted(After(db, UpsertOp(db, parent, name, Inode(id), rev)))
    ensures Tree(db) ==> Tree(After(db, UpsertOp(db, parent, name, Inode(id), rev)))
  {
    var op := UpsertOp(db, parent, name, Inode(id), rev);
    hide After, Check, BackPointers, Acyclic;
    AfterKeepsBackPointers(db, op);
    UpsertRewires(db, parent, name, id, rev);
    RootUnreferred(db, parent, name, id, rev);
    hide UpsertOp, Avoids, Rewired;
    if Acyclic(db) { RewireKeepsAcyclic(db, After(db, op), (parent, name), id); }
  }

  lemma UpsertRewires(db: Db, parent: InodeId, name: Name, id: InodeId, rev: nat)
    requires Check(db, UpsertOp(db, parent, name, Inode(id), rev)).None? && ChildInode(db, (parent, name)).None?
    ensures var db2 := After(db, UpsertOp(db, parent, name, Inode(id), rev));
      Rewired(db, db2, (parent, name), id) && Grows(db, db2) && ChildInode(db2, (parent, name)) == Some(id)
  {
    hide NodesAfter;
  }

  lemma RootUnreferred(db: Db, parent: InodeId, name: Name, id: InodeId, rev: nat)
    requires ROOT in db.nodes && db.nodes[ROOT].refBy.None? && id != ROOT
    ensures var db2 := After(db, UpsertOp(db, parent, name, Inode(id), rev));
      ROOT in db2.nodes && db2.nodes[ROOT].refBy.None?
  {
  }

  // The record of the directory made at e: over the object that was there, else over the given base.
  function NewDir(db: Db, e: Edge, base: Option<ObjId>): NodeRecord {
    var over := if e in db.dentries && db.dentries[e].target.Obj? then Some(db.dentries[e].target.objId)
                else if e in db.dentries then None else base;
    NodeRecord(None, false, over, if over.Some? then DirOverlay else DirNormal, Some(0))
  }

  // A directory can be opened or made at e.
  predicate CanHaveDir(db: Db, e: Edge, base: Option<ObjId>) {
    (base.Some? ==> base.value.kind == DirObj) &&
    e.0 in db.nodes && db.nodes[e.0].Kind() == Dir && !db.nodes[e.0].readOnly &&
    (e in db.dentries ==>
      match db.dentries[e].target
      case Inode(id) => id in db.nodes && db.nodes[id].Kind() == Dir
      case Obj(o) => o.kind == DirObj
      case Tombstone => base.None?
      case SymLink(_) => false)
  }

  // There is a directory at e already, or the dentry of a new one is accepted.
  predicate DirFits(db: Db, e: Edge, base: Option<ObjId>)
    requires e.0 in db.nodes
  {
    ChildInode(db, e).Some? || DirAccepted(db, NewDir(db, e, base), e.0, e.1, db.nodes[e.0].Rev())
  }

  // The directory at e is id: the one that was there, or a new one made in one transaction.
  predicate Opened(db: Db, db2: Db, e: Edge, base: Option<ObjId>, id: InodeId)
    requires e.0 in db.nodes
  {
    if ChildInode(db, e).Some? then ChildInode(db, e) == Some(id) && db2 == db
    else
      var rev := db.nodes[e.0].Rev();
      id == NextInode(db.nodes) && DirAccepted(db, NewDir(db, e, base), e.0, e.1, rev) &&
      db2 == WithDir(db, NewDir(db, e, base), e.0, e.1, rev)
  }

  // create_dir_under_parent (no base) and materialize_dir_from_obj (the base the directory is to have)
  method DirUnder(tables: Tables, parent: InodeId, name: Name, base: Option<ObjId>)
    returns (r: Result<InodeId, NsError>, touched: seq<Edge>)
    modifies tables
    ensures r.Err? ==> tables.S() == old(tables.S())
    ensures r.Ok? <==> CanHaveDir(old(tables.S()), (parent, name), base) && DirFits(old(tables.S()), (parent, name), base)
    ensures r.Ok? ==> Opened(old(tables.S()), tables.S(), (parent, name), base, r.value)
    ensures touched == if r.Ok? && ChildInode(old(tables.S()), (parent, name)).None? then [(parent, name)] else []
  {
    hide After, Check, UpsertOp, NextInode;
    var saved := tables.S();
    if base.Some? && base.value.kind != DirObj { return Err(NotDirectory), []; }
    if parent !in tables.nodes { return Err(ParentNotFound), []; }
    if tables.nodes[parent].Kind() != Dir { return Err(NotDirectory), []; }
    if tables.nodes[parent].readOnly { return Err(ReadOnly), []; }
    var parentRev := tables.nodes[parent].Rev();
    var newBase := base;
    if (parent, name) in tables.dentries {
      match tables.dentries[(parent, name)].target {
        case Inode(id) =>
          if id !in tables.nodes { return Err(InodeNotFound), []; }
          if tables.nodes[id].Kind() != Dir { return Err(NotDirectory), []; }
          return Ok(id), [];
        case Obj(o) =>
          if o.kind != DirObj { return Err(NotDirectory), []; }
          newBase := Some(o);
        case Tombstone =>
          if base.Some? { return Err(NotFound), []; }
        case SymLink(_) => return Err(NotDirectory), [];
      }
    }
    var node := NodeRecord(None, false, newBase, if newBase.Some? then DirOverlay else DirNormal, Some(0));
    assert node == NewDir(saved, (parent, name), base);
    var newId := tables.AllocInode(0, node);
    var put := tables.Upsert(parent, name, Inode(newId.value), parentRev);
    if put.Err? {
      tables.RollbackTo(saved);
      return Err(put.error), [];
    }
    return newId, [(parent, name)];
  }

  // What opening or making a directory means for the tree.
  lemma DirUnderKeepsTree(db: Db, db2: Db, e: Edge, base: Option<ObjId>, id: InodeId)
    requires CanHaveDir(db, e, base) && Opened(db, db2, e, base, id)
    ensures Grows(db, db2) && ChildInode(db2, e) == Some(id)
    ensures (Rooted(db) ==> Rooted(db2)) && (Tree(db) ==> Tree(db2))
  {
    assert Tree(db) ==> Rooted(db);
    hide Tree, Rooted, DirAccepted, WithDir, NextInode;
    if ChildInode(db, e).None? {
      NewDirGrows(db, NewDir(db, e, base), e.0, e.1, db.nodes[e.0].Rev());
      if Rooted(db) { NewDirKeepsTree(db, NewDir(db, e, base), e.0, e.1, db.nodes[e.0].Rev()); }
    }
  }

  // It changes a target at most where it reports to.
  lemma DirUnderDiffersIn(db: Db, db2: Db, e: Edge, base: Option<ObjId>, id: InodeId)
    requires CanHaveDir(db, e, base) && Opened(db, db2, e, base, id)
    ensures DiffersIn(db, db2, if ChildInode(db, e).None? then {e} else {})
  {
    if ChildInode(db, e).None? {
      var node := NewDir(db, e, base);
      hide DirAccepted, WithDir, NextInode;
      WithDirIs(db, node, e, db.nodes[e.0].Rev());
      RowsDifferIn(db, db2, e);
    }
  }

  lemma RowsDifferIn(db: Db, db2: Db, e: Edge)
    requires NodesKept(db, db2) && forall f :: f != e ==> RowAt(db2, f) == RowAt(db, f)
    ensures DiffersIn(db, db2, {e})
  {
    forall f | f != e ensures TargetAt(db, f) == TargetAt(db2, f) {
      assert RowAt(db2, f) == RowAt(db, f);
    }
    forall n | n in db.nodes && db.nodes[n].Kind() == Dir
      ensures n in db2.nodes && db2.nodes[n].Kind() == Dir && db2.nodes[n].baseObj == db.nodes[n].baseObj
    {
      assert SameExceptLinks(db.nodes[n], db2.nodes[n]);
    }
  }

  // ---- what a lookup sees of it ----

  ghost predicate SameExceptLinks(node: NodeRecord, node2: NodeRecord) {
    node2 == node.(refBy := node2.refBy, rev := node2.rev)
  }

  // Inodes stay as they are, except for back-pointers and revisions.
  ghost predicate NodesKept(db: Db, db2: Db) {
    forall x :: x in db.nodes ==> x in db2.nodes && SameExceptLinks(db.nodes[x], db2.nodes[x])
  }

  // The base of a new directory, by what was looked up before: an object of its own, or nothing.
  predicate BaseFor(r: LookupResult, base: Option<ObjId>) {
    match r
    case Found(Obj(o)) => o.kind == DirObj && base == Some(o)
    case Found(Tombstone) => base == None
    case Absent => base == None
    case _ => false
  }

  // A lookup sees what it saw, or a new directory over the directory object, or over the nothing, it saw.
  ghost predicate SeenAs(db: Db, db2: Db, r: LookupResult, r2: LookupResult) {
    r2 == r ||
    (r2.Found? && r2.target.Inode? && r2.target.id !in db.nodes && r2.target.id in db2.nodes &&
     db2.nodes[r2.target.id].Kind() == Dir && BaseFor(r, db2.nodes[r2.target.id].baseObj))
  }

  ghost predicate SameView(db: Db, db2: Db, objects: DirObjects) {
    NodesKept(db, db2) &&
    forall d, n :: d in db.nodes ==> SeenAs(db, db2, Lookup(db, objects, d, n), Lookup(db2, objects, d, n))
  }

  lemma SameViewTwice(a: Db, b: Db, c: Db, objects: DirObjects)
    requires SameView(a, b, objects) && SameView(b, c, objects)
    ensures SameView(a, c, objects)
  {
    hide Lookup;
    forall d, n | d in a.nodes ensures SeenAs(a, c, Lookup(a, objects, d, n), Lookup(c, objects, d, n)) {
      assert SeenAs(a, b, Lookup(a, objects, d, n), Lookup(b, objects, d, n));
      assert SeenAs(b, c, Lookup(b, objects, d, n), Lookup(c, objects, d, n));
    }
  }

  // The base handed to DirUnder is what the base layer has at e, where the upper layer has nothing.
  ghost predicate BaseMatches(db: Db, objects: DirObjects, e: Edge, base: Option<ObjId>) {
    e.0 in db.nodes && e !in db.dentries ==>
      LookupBase(objects, db.nodes[e.0].baseObj, e.1) == if base.Some? then Found(Obj(base.value)) else Absent
  }

  // The tables after a directory was made, row by row and inode by inode.
  lemma WithDirIs(db: Db, node: NodeRecord, e: Edge, rev: nat)
    requires ChildInode(db, e).None? && DirAccepted(db, node, e.0, e.1, rev)
    ensures var id, db2 := NextInode(db.nodes), WithDir(db, node, e.0, e.1, rev);
      NodesKept(db, db2) && id !in db.nodes && id in db2.nodes && SameExceptLinks(node, db2.nodes[id]) &&
      (forall f :: f != e ==> RowAt(db2, f) == RowAt(db, f)) && RowAt(db2, e).Some? && RowAt(db2, e).value.target == Inode(id)
  {
    var id, mid := NextInode(db.nodes), After(db, AllocOp(0, node));
    assert mid.dentries == db.dentries && mid.nodes == db.nodes[id := node];
    hide NextInode, After, ChildInode;
    UpsertNodes(mid, e, id, rev);
  }

  lemma UpsertNodes(db: Db, e: Edge, id: InodeId, rev: nat)
    requires ChildInode(db, e).None? && Check(db, UpsertOp(db, e.0, e.1, Inode(id), rev)).None?
    ensures var db2 := After(db, UpsertOp(db, e.0, e.1, Inode(id), rev));
      db2.nodes.Keys == db.nodes.Keys && NodesKept(db, db2) &&
      (forall f :: f != e ==> RowAt(db2, f) == RowAt(db, f)) && RowAt(db2, e).Some? && RowAt(db2, e).value.target == Inode(id)
  {
  }

  lemma DirUnderKeepsView(db: Db, objects: DirObjects, e: Edge, base: Option<ObjId>, rev: nat)
    requires CanHaveDir(db, e, base) && ChildInode(db, e).None? && BaseMatches(db, objects, e, base)
    requires DirAccepted(db, NewDir(db, e, base), e.0, e.1, rev)
    ensures SameView(db, WithDir(db, NewDir(db, e, base), e.0, e.1, rev), objects)
  {
    var node, id := NewDir(db, e, base), NextInode(db.nodes);
    var db2 := WithDir(db, node, e.0, e.1, rev);
    WithDirIs(db, node, e, rev);
    hide WithDir, DirAccepted, NextInode;
    NewDirSeen(db, db2, objects, e, base, id);
    hide CanHaveDir, BaseMatches, NewDir, SeenAs;
    forall d, n | d in db.nodes && (d, n) != e ensures SeenAs(db, db2, Lookup(db, objects, d, n), Lookup(db2, objects, d, n)) {
      assert RowAt(db2, (d, n)) == RowAt(db, (d, n));
      OtherSeen(db, db2, objects, d, n);
    }
    hide Lookup;
  }

  lemma OtherSeen(db: Db, db2: Db, objects: DirObjects, d: InodeId, n: Name)
    requires NodesKept(db, db2) && d in db.nodes && RowAt(db2, (d, n)) == RowAt(db, (d, n))
    ensures SeenAs(db, db2, Lookup(db, objects, d, n), Lookup(db2, objects, d, n))
  {
    assert SameExceptLinks(db.nodes[d], db2.nodes[d]);
  }

  lemma NewDirSeen(db: Db, db2: Db, objects: DirObjects, e: Edge, base: Option<ObjId>, id: InodeId)
    requires CanHaveDir(db, e, base) && ChildInode(db, e).None? && BaseMatches(db, objects, e, base)
    requires id !in db.nodes && id in db2.nodes && SameExceptLinks(NewDir(db, e, base), db2.nodes[id])
    requires RowAt(db2, e).Some? && RowAt(db2, e).value.target == Inode(id)
    ensures SeenAs(db, db2, Lookup(db, objects, e.0, e.1), Lookup(db2, objects, e.0, e.1))
  {
  }

  // ---- walking to a directory, creating what is missing ----

  // Where the upper layer has no row, a resolve of the path so far ends in the base, not in an inode.
  lemma NoRowNoInode(db: Db, objects: DirObjects, path: Path, i: nat, dir: InodeId, budget: nat)
    requires i < |path| && Descend(db, ROOT, path[..i]) == Some(dir) && (dir, path[i]) !in db.dentries
    ensures var answer := Resolve(db, objects, path[..i + 1], budget);
      (answer.Resolved? ==> answer.item.ObjItem? && answer.inner == []) &&
      (answer.Resolved? ==> Lookup(db, objects, dir, path[i]) == Found(Obj(answer.item.objId))) &&
      (answer == Nothing ==> Lookup(db, objects, dir, path[i]) == Absent) &&
      (answer == Error ==> Lookup(db, objects, dir, path[i]) == Failed)
  {
    var p := path[..i + 1];
    assert p[..i] == path[..i];
    ChainIsDescend(db, p[..i]);
    WalkFromChain(db, objects, p, i);
    hide Chain, LookupBase;
    assert WalkFrom(db, objects, dir, p, i).AtObj? ==> p[WalkFrom(db, objects, dir, p, i).index + 1..] == [];
  }

  // What making directories keeps: edges to inodes, what lookups see, back-pointers and the tree, and every
  // target outside the touched edges.
  ghost predicate Keeps(db: Db, db2: Db, objects: DirObjects, touched: seq<Edge>) {
    Grows(db, db2) && SameView(db, db2, objects) && DiffersIn(db, db2, set f | f in touched) &&
    (Rooted(db) ==> Rooted(db2)) && (Tree(db) ==> Tree(db2))
  }

  // One step of the walk: the edge leads to the inode.
  ghost predicate Stepped(db: Db, db2: Db, objects: DirObjects, e: Edge, id: InodeId, touched: seq<Edge>) {
    Keeps(db, db2, objects, touched) && ChildInode(db2, e) == Some(id)
  }

  lemma KeepsStart(db: Db, objects: DirObjects)
    ensures Keeps(db, db, objects, [])
  {
    SameViewStart(db, objects);
    hide SameView, Rooted, Acyclic;
  }

  lemma KeepsTwice(a: Db, b: Db, c: Db, objects: DirObjects, e: seq<Edge>, f: seq<Edge>)
    requires Keeps(a, b, objects, e) && Keeps(b, c, objects, f)
    ensures Keeps(a, c, objects, e + f)
  {
    GrowsTwice(a, b, c);
    SameViewTwice(a, b, c, objects);
    DiffersTwice(a, b, c, set k | k in e, set k | k in f);
    hide SameView, Grows, DiffersIn, Rooted, Tree;
    assert (set k | k in e + f) == (set k | k in e) + (set k | k in f);
  }

  lemma MadeStep(db: Db, db2: Db, objects: DirObjects, e: Edge, base: Option<ObjId>, id: InodeId)
    requires CanHaveDir(db, e, base) && BaseMatches(db, objects, e, base) && Opened(db, db2, e, base, id)
    ensures Stepped(db, db2, objects, e, id, if ChildInode(db, e).None? then [e] else [])
  {
    DirUnderKeepsTree(db, db2, e, base, id);
    DirUnderDiffersIn(db, db2, e, base, id);
    if ChildInode(db, e).None? {
      DirUnderKeepsView(db, objects, e, base, db.nodes[e.0].Rev());
      assert (set f | f in [e]) == {e};
    } else {
      SameViewStart(db, objects);
      assert (set f: Edge | f in []) == {};
    }
    hide CanHaveDir, BaseMatches, DirAccepted, WithDir, NextInode, SameView, Tree, Rooted, Grows, DiffersIn;
  }

  lemma SameViewStart(db: Db, objects: DirObjects)
    ensures SameView(db, db, objects)
  {
    hide Lookup;
  }

  lemma ExistingStep(db: Db, objects: DirObjects, e: Edge, id: InodeId)
    requires e in db.dentries && db.dentries[e].target == Inode(id)
    ensures Stepped(db, db, objects, e, id, [])
  {
    KeepsStart(db, objects);
    hide Keeps;
  }

  lemma ResolvedBase(db: Db, objects: DirObjects, path: Path, i: nat, dir: InodeId, budget: nat)
    requires i < |path| && Descend(db, ROOT, path[..i]) == Some(dir) && (dir, path[i]) !in db.dentries
    ensures var answer := Resolve(db, objects, path[..i + 1], budget);
      (answer.Resolved? ==> answer.item.ObjItem? && (dir in db.nodes && db.nodes[dir].Kind() == Dir ==>
        BaseMatches(db, objects, (dir, path[i]), Some(answer.item.objId)))) &&
      (answer == Nothing ==> (dir in db.nodes && db.nodes[dir].Kind() == Dir ==> BaseMatches(db, objects, (dir, path[i]), None)))
  {
    NoRowNoInode(db, objects, path, i, dir, budget);
    hide Resolve, LookupBase;
  }

  // ---- which directories can be opened ----

  // Where the way to a directory ends: at an inode that is there, or at one to be made over a base.
  datatype Spot = There(id: InodeId) | ToMake(base: Option<ObjId>)

  // What is seen under a name can be opened: an inode if it is a directory; a directory object, or nothing, by
  // making an inode over it, if the directory it is in can be written.
  function SpotSeen(db: Db, seen: LookupResult, writable: bool): Option<Spot> {
    match seen
    case Found(Inode(id)) => if id in db.nodes && db.nodes[id].Kind() == Dir then Some(There(id)) else None
    case Found(Obj(o)) => if o.kind == DirObj && writable then Some(ToMake(Some(o))) else None
    case Found(SymLink(_)) => None
    case Found(Tombstone) => if writable then Some(ToMake(None)) else None
    case Absent => if writable then Some(ToMake(None)) else None
    case Failed => None
  }

  // A directory that was just made has no rows and can be written.
  function SpotUnder(db: Db, objects: DirObjects, at: Spot, name: Name): Option<Spot> {
    match at
    case There(dir) => SpotSeen(db, Lookup(db, objects, dir, name), Writable(db, dir))
    case ToMake(base) => SpotSeen(db, LookupBase(objects, base, name), true)
  }

  // Whether a path can be opened as a directory, and what it leads to.
  function Opens(db: Db, objects: DirObjects, path: Path): Option<Spot> {
    if path == [] then Some(There(ROOT))
    else
      var at := Opens(db, objects, path[..|path| - 1]);
      if at.Some? then SpotUnder(db, objects, at.value, path[|path| - 1]) else None
  }

  // The path leads through directories that are there.
  ghost predicate DirsAlong(db: Db, path: Path) {
    forall k :: 0 < k <= |path| ==> IsDirAt(db, path[..k])
  }

  ghost predicate IsDirAt(db: Db, path: Path) {
    var id := Descend(db, ROOT, path);
    id.Some? && id.value in db.nodes && db.nodes[id.value].Kind() == Dir
  }

  // Such a path, and no other, opens without making anything.
  lemma {:induction false} ExistingOpens(db: Db, objects: DirObjects, path: Path)
    ensures DirsAlong(db, path) <==> Opens(db, objects, path).Some? && Opens(db, objects, path).value.There?
    ensures DirsAlong(db, path) ==> Descend(db, ROOT, path) == Some(Opens(db, objects, path).value.id)
    decreases |path|
  {
    if path != [] {
      var n := |path| - 1;
      ExistingOpens(db, objects, path[..n]);
      DirsAlongPush(db, path);
      hide DirsAlong, LookupBase;
    }
  }

  lemma DirsAlongPush(db: Db, path: Path)
    requires path != []
    ensures DirsAlong(db, path) <==> DirsAlong(db, path[..|path| - 1]) && IsDirAt(db, path)
  {
    hide IsDirAt;
    var n := |path| - 1;
    assert path[..|path|] == path;
    assert forall k :: 0 < k <= n ==> path[..n][..k] == path[..k];
    if DirsAlong(db, path) {
      forall k | 0 < k <= n ensures IsDirAt(db, path[..n][..k]) { assert IsDirAt(db, path[..k]); }
    }
    if DirsAlong(db, path[..n]) && IsDirAt(db, path) {
      forall k | 0 < k <= |path| ensures IsDirAt(db, path[..k]) {
        if k <= n { assert IsDirAt(db, path[..n][..k]); }
      }
    }
  }

  // Below where nothing is, everything can be made.
  lemma {:induction false} NothingBelow(db: Db, objects: DirObjects, path: Path, more: Path)
    requires Opens(db, objects, path) == Some(ToMake(None))
    ensures Opens(db, objects, path + more) == Some(ToMake(None))
    decreases |more|
  {
    if more == [] {
      assert path + more == path;
    } else {
      assert (path + more)[..|path + more| - 1] == path + more[..|more| - 1];
      NothingBelow(db, objects, path, more[..|more| - 1]);
    }
  }

  lemma {:induction false} OpensPrefix(db: Db, objects: DirObjects, path: Path, k: nat)
    requires k <= |path| && Opens(db, objects, path).Some?
    ensures Opens(db, objects, path[..k]).Some?
    decreases |path|
  {
    if k == |path| {
      assert path[..k] == path;
    } else {
      assert path[..|path| - 1][..k] == path[..k];
      OpensPrefix(db, objects, path[..|path| - 1], k);
    }
  }

  // A directory that was just made over the base.
  ghost predicate Made(db: Db, id: InodeId, base: Option<ObjId>) {
    Writable(db, id) && db.nodes[id].baseObj == base && NoRows(db, id)
  }

  // The spot was opened as id: nothing changed if it was there.
  ghost predicate OpenedAt(db: Db, db2: Db, at: Spot, id: InodeId, touched: seq<Edge>) {
    match at
    case There(x) => id == x && db2 == db && touched == []
    case ToMake(base) => Made(db2, id, base)
  }

  // With right back-pointers the dentry of a new directory is always accepted.
  lemma DirAlwaysFits(db: Db, e: Edge, base: Option<ObjId>)
    requires BackPointers(db) && CanHaveDir(db, e, base)
    ensures DirFits(db, e, base)
  {
    if ChildInode(db, e).None? {
      var id := NextInode(db.nodes);
      forall f | f in db.dentries ensures db.dentries[f].target != Inode(id) {
        NewIsUnreferred(db, f, id);
      }
      hide NextInode, BackPointers;
    }
  }

  lemma NewIsUnreferred(db: Db, f: Edge, id: InodeId)
    requires BackPointers(db) && f in db.dentries && id !in db.nodes
    ensures db.dentries[f].target != Inode(id)
  {
    var d := db.dentries[f].id;
    assert db.dentries[f].target == Inode(id) ==> Points(db, f, id, d);
  }

  // What is made is empty.
  lemma NewIsMade(db: Db, db2: Db, e: Edge, base: Option<ObjId>, id: InodeId)
    requires Rows(db) && CanHaveDir(db, e, base) && ChildInode(db, e).None? && Opened(db, db2, e, base, id)
    ensures Made(db2, id, NewDir(db, e, base).baseObj)
  {
    WithDirIs(db, NewDir(db, e, base), e, db.nodes[e.0].Rev());
    hide WithDir, DirAccepted, NextInode;
    forall f | f in db2.dentries ensures f.0 != id {
      assert f != e ==> RowAt(db2, f) == RowAt(db, f);
    }
  }

  // One name can be opened exactly if what is seen under it allows it.
  ghost predicate RightStep(db: Db, db2: Db, objects: DirObjects, e: Edge, r: Result<InodeId, NsError>, touched: seq<Edge>) {
    var spot := SpotUnder(db, objects, There(e.0), e.1);
    (r.Ok? <==> spot.Some?) &&
    (r.Ok? ==> OpenedAt(db, db2, spot.value, r.value, touched)) &&
    (r.Ok? && spot.value.ToMake? ==> touched == [e])
  }

  lemma SpotOfRow(db: Db, objects: DirObjects, e: Edge)
    requires e in db.dentries
    ensures SpotUnder(db, objects, There(e.0), e.1) == SpotSeen(db, Found(db.dentries[e].target), Writable(db, e.0))
  {
  }

  // DirUnder makes a directory over what is seen exactly if the parent can be written.
  lemma UnderStep(db: Db, db2: Db, objects: DirObjects, e: Edge, base: Option<ObjId>, r: Result<InodeId, NsError>)
    requires BackPointers(db) && BaseFor(Lookup(db, objects, e.0, e.1), base)
    requires r.Ok? <==> CanHaveDir(db, e, base) && DirFits(db, e, base)
    requires r.Ok? ==> Opened(db, db2, e, base, r.value)
    ensures RightStep(db, db2, objects, e, r, if r.Ok? then [e] else []) && ChildInode(db, e).None?
  {
    SeenCanHave(db, objects, e, base);
    hide LookupBase;
    if CanHaveDir(db, e, base) {
      DirAlwaysFits(db, e, base);
      hide DirFits;
      NewIsMade(db, db2, e, base, r.value);
    }
    hide CanHaveDir, NewDir, Opened, BackPointers, Made;
  }

  lemma SeenCanHave(db: Db, objects: DirObjects, e: Edge, base: Option<ObjId>)
    requires BaseFor(Lookup(db, objects, e.0, e.1), base)
    ensures CanHaveDir(db, e, base) <==> Writable(db, e.0)
    ensures SpotUnder(db, objects, There(e.0), e.1) == if Writable(db, e.0) then Some(ToMake(base)) else None
    ensures ChildInode(db, e).None? && NewDir(db, e, base).baseObj == base
  {
  }

  // The body of the loop of ensure_dir_inode.
  method NextDir(tables: Tables, objects: DirObjects, path: Path, i: nat, currentId: InodeId)
    returns (r: Result<InodeId, NsError>, touched: seq<Edge>)
    requires i < |path|
    modifies tables
    ensures r.Err? ==> tables.S() == old(tables.S())
    ensures r.Ok? && Descend(old(tables.S()), ROOT, path[..i]) == Some(currentId) ==>
      Stepped(old(tables.S()), tables.S(), objects, (currentId, path[i]), r.value, touched)
    ensures BackPointers(old(tables.S())) && Descend(old(tables.S()), ROOT, path[..i]) == Some(currentId) ==>
      RightStep(old(tables.S()), tables.S(), objects, (currentId, path[i]), r, touched)
  {
    hide Resolve, Stepped, ChildInode, Descend, CanHaveDir, BaseMatches, NewDir, DirAccepted, WithDir, NextInode, BackPointers,
         Lookup, SpotUnder, BaseFor, DirFits;
    var db := tables.S();
    var e := (currentId, path[i]);
    ghost var reached := Descend(db, ROOT, path[..i]) == Some(currentId);
    var base: Option<ObjId> := None;
    if e in tables.dentries {
      SpotOfRow(db, objects, e);
      match tables.dentries[e].target {
        case Inode(id) =>
          if id !in tables.nodes { return Err(InodeNotFound), []; }
          if tables.nodes[id].Kind() != Dir { return Err(NotDirectory), []; }
          ExistingStep(db, objects, e, id);
          return Ok(id), [];
        case Obj(o) =>
          if o.kind != DirObj { return Err(NotDirectory), []; }
          base := Some(o);
        case Tombstone =>
        case SymLink(_) => return Err(NotDirectory), [];
      }
      RowMatches(db, objects, e, base);
    } else {
      if reached { ResolvedSeen(db, objects, path, i, currentId, CLIENT_SYMLINK_COUNT); }
      if reached { ResolvedBase(db, objects, path, i, currentId, CLIENT_SYMLINK_COUNT); }
      match Resolve(db, objects, path[..i + 1], CLIENT_SYMLINK_COUNT) {
        case Error => return Err(LookupFailed), [];
        case Nothing =>
        case Resolved(InodeItem(id, node), _) =>
          if node.Kind() != Dir { return Err(NotDirectory), []; }
          return Ok(id), [];
        case Resolved(ObjItem(o), inner) =>
          if o.kind != DirObj || inner != [] { return Err(NotDirectory), []; }
          base := Some(o);
        case Resolved(LinkItem(_), _) => return Err(NotDirectory), [];
      }
    }
    r, touched := DirUnder(tables, e.0, e.1, base);
    if r.Ok? && reached {
      CanHaveDirIsDir(db, e, base);
      MadeStep(db, tables.S(), objects, e, base, r.value);
    }
    if reached && BackPointers(db) { UnderStep(db, tables.S(), objects, e, base, r); }
  }

  // What the resolver says where there is no row, as a lookup sees it.
  lemma ResolvedSeen(db: Db, objects: DirObjects, path: Path, i: nat, dir: InodeId, budget: nat)
    requires i < |path| && Descend(db, ROOT, path[..i]) == Some(dir) && (dir, path[i]) !in db.dentries
    ensures var answer, seen := Resolve(db, objects, path[..i + 1], budget), Lookup(db, objects, dir, path[i]);
      (answer == Error ==> SpotUnder(db, objects, There(dir), path[i]) == None) &&
      (answer == Nothing ==> BaseFor(seen, None)) &&
      (answer.Resolved? ==>
        answer.item.ObjItem? && answer.inner == [] &&
        if answer.item.objId.kind == DirObj then BaseFor(seen, Some(answer.item.objId))
        else SpotUnder(db, objects, There(dir), path[i]) == None)
  {
    NoRowNoInode(db, objects, path, i, dir, budget);
    hide Resolve, Lookup;
  }

  lemma RowMatches(db: Db, objects: DirObjects, e: Edge, base: Option<ObjId>)
    requires e in db.dentries
    requires match db.dentries[e].target case Obj(o) => o.kind == DirObj && base == Some(o) case t => t == Tombstone && base == None
    ensures BaseMatches(db, objects, e, base) && BaseFor(Lookup(db, objects, e.0, e.1), base)
  {
  }

  lemma CanHaveDirIsDir(db: Db, e: Edge, base: Option<ObjId>)
    requires CanHaveDir(db, e, base)
    ensures e.0 in db.nodes && db.nodes[e.0].Kind() == Dir
  {
  }

  // A touched edge belongs to the path: its directory is reached by a part of it, and its name follows.
  ghost predicate OnPath(db: Db, path: Path, n: nat, e: Edge)
    requires n <= |path|
  {
    exists k :: 0 <= k < n && Descend(db, ROOT, path[..k]) == Some(e.0) && path[k] == e.1
  }

  // How far the walk has come after n names.
  ghost predicate Walked(start: Db, db: Db, objects: DirObjects, path: Path, n: nat, id: InodeId, touched: seq<Edge>)
    requires n <= |path|
  {
    var spot := Opens(start, objects, path[..n]);
    spot.Some? && OpenedAt(start, db, spot.value, id, touched) && DirsAlong(db, path[..n]) &&
    forall e :: e in touched ==> OnPath(db, path, n, e)
  }

  // FsMetaClient::ensure_dir_inode: on success the inode is the one the path leads to.  Directories may
  // have been made on the way, over what lookups saw there, and nothing else changes.  It succeeds exactly
  // if every name on the way can be opened, and then makes nothing that was there.
  method EnsureDirInode(tables: Tables, objects: DirObjects, path: Path)
    returns (r: Result<InodeId, NsError>, touched: seq<Edge>)
    modifies tables
    ensures Keeps(old(tables.S()), tables.S(), objects, touched)
    ensures r.Ok? ==> Descend(tables.S(), ROOT, path) == Some(r.value)
    ensures Rooted(old(tables.S())) ==> (r.Ok? <==> Opens(old(tables.S()), objects, path).Some?)
    ensures Rooted(old(tables.S())) && r.Ok? ==>
      OpenedAt(old(tables.S()), tables.S(), Opens(old(tables.S()), objects, path).value, r.value, touched) &&
      DirsAlong(tables.S(), path) && forall e :: e in touched ==> OnPath(tables.S(), path, |path|, e)
    ensures DirsAlong(old(tables.S()), path) && Rooted(old(tables.S())) ==>
      r.Ok? && tables.S() == old(tables.S()) && touched == []
  {
    hide Keeps, Stepped, Descend, Rooted, RightStep, Opens, OpenedAt, DirsAlong, OnPath, Walked;
    ghost var db := tables.S();
    var currentId := ROOT;
    touched := [];
    DescendStart(db, path);
    KeepsStart(db, objects);
    WalkedStart(db, objects, path);
    WalkedExisting(db, objects, path);
    for i := 0 to |path|
      invariant Keeps(db, tables.S(), objects, touched)
      invariant Descend(tables.S(), ROOT, path[..i]) == Some(currentId)
      invariant Rooted(db) ==> Walked(db, tables.S(), objects, path, i, currentId, touched)
    {
      ghost var before := tables.S();
      KeepsRooted(db, before, objects, touched);
      var next, changed := NextDir(tables, objects, path, i, currentId);
      if Rooted(db) { WalkedRefused(db, before, tables.S(), objects, path, i, currentId, touched, next, changed); }
      if next.Err? { return next, touched; }
      WalkOn(db, before, tables.S(), objects, path, i, currentId, next.value, touched, changed);
      if Rooted(db) { WalkedNext(db, before, tables.S(), objects, path, i, currentId, touched, next, changed); }
      currentId := next.value;
      touched := touched + changed;
    }
    assert path[..|path|] == path;
    if Rooted(db) { WalkedAll(db, tables.S(), objects, path, currentId, touched); }
    return Ok(currentId), touched;
  }

  lemma KeepsRooted(db: Db, db2: Db, objects: DirObjects, touched: seq<Edge>)
    requires Keeps(db, db2, objects, touched)
    ensures Rooted(db) ==> BackPointers(db2)
  {
  }

  lemma WalkedStart(db: Db, objects: DirObjects, path: Path)
    ensures Walked(db, db, objects, path, 0, ROOT, [])
  {
    assert path[..0] == [];
  }

  lemma WalkedExisting(db: Db, objects: DirObjects, path: Path)
    ensures DirsAlong(db, path) ==> Opens(db, objects, path).Some?
    ensures DirsAlong(db, path) ==>
      forall db2: Db, id, touched :: OpenedAt(db, db2, Opens(db, objects, path).value, id, touched) ==> db2 == db && touched == []
  {
    ExistingOpens(db, objects, path);
    hide DirsAlong, Opens;
  }

  lemma WalkedAll(start: Db, db: Db, objects: DirObjects, path: Path, id: InodeId, touched: seq<Edge>)
    requires Walked(start, db, objects, path, |path|, id, touched)
    ensures Opens(start, objects, path).Some?
    ensures OpenedAt(start, db, Opens(start, objects, path).value, id, touched)
    ensures DirsAlong(db, path) && forall e :: e in touched ==> OnPath(db, path, |path|, e)
  {
    assert path[..|path|] == path;
    hide Opens, OpenedAt, DirsAlong, OnPath;
  }

  // A name that cannot be opened stops the walk for good.
  lemma WalkedRefused(start: Db, db: Db, db2: Db, objects: DirObjects, path: Path, i: nat, dir: InodeId, touched: seq<Edge>,
                      r: Result<InodeId, NsError>, changed: seq<Edge>)
    requires i < |path| && Walked(start, db, objects, path, i, dir, touched)
    requires RightStep(db, db2, objects, (dir, path[i]), r, changed)
    ensures r.Err? ==> Opens(start, objects, path) == None
  {
    hide DirsAlong, OnPath;
    SpotStep(start, db, db2, objects, path, i, dir, touched, r, changed);
    hide Opens, OpenedAt, RightStep;
    if Opens(start, objects, path).Some? { OpensPrefix(start, objects, path, i + 1); }
  }

  // Seen from the start, a made directory is what its base says, and one that was there is as it was.
  lemma SpotStep(start: Db, db: Db, db2: Db, objects: DirObjects, path: Path, i: nat, dir: InodeId, touched: seq<Edge>,
                 r: Result<InodeId, NsError>, changed: seq<Edge>)
    requires i < |path| && Opens(start, objects, path[..i]).Some?
    requires OpenedAt(start, db, Opens(start, objects, path[..i]).value, dir, touched)
    requires RightStep(db, db2, objects, (dir, path[i]), r, changed)
    ensures r.Ok? <==> Opens(start, objects, path[..i + 1]).Some?
    ensures r.Ok? ==> OpenedAt(start, db2, Opens(start, objects, path[..i + 1]).value, r.value, touched + changed)
    ensures r.Ok? ==> r.value in db2.nodes && db2.nodes[r.value].Kind() == Dir && (changed == [] || changed == [(dir, path[i])])
  {
    assert path[..i + 1][..i] == path[..i];
    var at := Opens(start, objects, path[..i]).value;
    assert Opens(start, objects, path[..i + 1]) == SpotUnder(start, objects, at, path[i]);
    hide Opens;
    SameSpot(start, db, objects, at, dir, touched, path[i]);
    SpotIsDir(db, objects, dir, path[i]);
    hide SpotUnder;
  }

  lemma SameSpot(start: Db, db: Db, objects: DirObjects, at: Spot, dir: InodeId, touched: seq<Edge>, name: Name)
    requires OpenedAt(start, db, at, dir, touched)
    ensures SpotUnder(db, objects, There(dir), name) == SpotUnder(start, objects, at, name)
    ensures at.ToMake? && SpotUnder(db, objects, There(dir), name).Some? ==> SpotUnder(db, objects, There(dir), name).value.ToMake?
  {
  }

  lemma SpotIsDir(db: Db, objects: DirObjects, dir: InodeId, name: Name)
    ensures var spot := SpotUnder(db, objects, There(dir), name);
      spot.Some? && spot.value.There? ==> spot.value.id in db.nodes && db.nodes[spot.value.id].Kind() == Dir
  {
  }

  lemma WalkedNext(start: Db, db: Db, db2: Db, objects: DirObjects, path: Path, i: nat, dir: InodeId, touched: seq<Edge>,
                   r: Result<InodeId, NsError>, changed: seq<Edge>)
    requires i < |path| && Walked(start, db, objects, path, i, dir, touched) && r.Ok?
    requires RightStep(db, db2, objects, (dir, path[i]), r, changed)
    requires Stepped(db, db2, objects, (dir, path[i]), r.value, changed) && Descend(db, ROOT, path[..i]) == Some(dir)
    requires Descend(db2, ROOT, path[..i + 1]) == Some(r.value)
    ensures Walked(start, db2, objects, path, i + 1, r.value, touched + changed)
  {
    SpotStep(start, db, db2, objects, path, i, dir, touched, r, changed);
    KeepsGrows(db, db2, objects, changed);
    KeepsNodes(db, db2, objects, changed);
    hide Opens, OpenedAt, RightStep, Keeps, Descend;
    DirsAlongGrows(db, db2, path[..i]);
    assert path[..i + 1][..i] == path[..i];
    DirsAlongPush(db2, path[..i + 1]);
    DescendGrows(db, db2, ROOT, path[..i]);
    hide DirsAlong;
    forall e | e in touched + changed ensures OnPath(db2, path, i + 1, e) {
      if e in touched { OnPathGrows(db, db2, path, i, e); }
    }
  }

  lemma KeepsNodes(db: Db, db2: Db, objects: DirObjects, touched: seq<Edge>)
    requires Keeps(db, db2, objects, touched)
    ensures NodesKept(db, db2)
  {
  }

  lemma DirsAlongGrows(db: Db, db2: Db, path: Path)
    requires Grows(db, db2) && NodesKept(db, db2) && DirsAlong(db, path)
    ensures DirsAlong(db2, path)
  {
    forall k | 0 < k <= |path| ensures IsDirAt(db2, path[..k]) {
      assert IsDirAt(db, path[..k]);
      IsDirGrows(db, db2, path[..k]);
    }
  }

  lemma IsDirGrows(db: Db, db2: Db, path: Path)
    requires Grows(db, db2) && NodesKept(db, db2) && IsDirAt(db, path)
    ensures IsDirAt(db2, path)
  {
    DescendGrows(db, db2, ROOT, path);
    var id := Descend(db, ROOT, path).value;
    hide Grows, Descend;
    assert SameExceptLinks(db.nodes[id], db2.nodes[id]);
  }

  lemma OnPathGrows(db: Db, db2: Db, path: Path, n: nat, e: Edge)
    requires Grows(db, db2) && n < |path| && OnPath(db, path, n, e)
    ensures OnPath(db2, path, n + 1, e)
  {
    var k :| 0 <= k < n && Descend(db, ROOT, path[..k]) == Some(e.0) && path[k] == e.1;
    DescendGrows(db, db2, ROOT, path[..k]);
    hide Grows, Descend;
  }

  lemma DescendStart(db: Db, path: Path)
    ensures Descend(db, ROOT, path[..0]) == Some(ROOT)
  {
  }

  lemma WalkOn(start: Db, db: Db, db2: Db, objects: DirObjects, path: Path, i: nat, dir: InodeId, next: InodeId,
               touched: seq<Edge>, changed: seq<Edge>)
    requires i < |path| && Keeps(start, db, objects, touched) && Descend(db, ROOT, path[..i]) == Some(dir)
    requires Stepped(db, db2, objects, (dir, path[i]), next, changed)
    ensures Keeps(start, db2, objects, touched + changed) && Descend(db2, ROOT, path[..i + 1]) == Some(next)
  {
    KeepsTwice(start, db, db2, objects, touched, changed);
    KeepsGrows(db, db2, objects, changed);
    DescendGrows(db, db2, ROOT, path[..i]);
    assert path[..i + 1][..i] == path[..i];
    hide Keeps;
  }

  lemma KeepsGrows(db: Db, db2: Db, objects: DirObjects, touched: seq<Edge>)
    requires Keeps(db, db2, objects, touched)
    ensures Grows(db, db2) && SameView(db, db2, objects) && DiffersIn(db, db2, set f | f in touched)
    ensures (Rooted(db) ==> Rooted(db2)) && (Tree(db) ==> Tree(db2))
  {
  }

  lemma GrowsTwice(a: Db, b: Db, c: Db)
    requires Grows(a, b) && Grows(b, c)
    ensures Grows(a, c)
  {
  }
}
