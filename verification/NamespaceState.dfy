// The nodes and dentries tables as values: what one effective dentry change does, the back-pointer
// invariant, and what directory revisions say about a run of changes.
module NamespaceState {
  import opened Bytes
  import opened FsTypes

  datatype NsError =
    | ParentNotFound | RevMismatch | AlreadyExists | DentryNotFound | TargetMismatch
    | InodeNotFound | AlreadyReferenced | Constraint | NotFound | Conflict | InvalidName | ReadOnly
    | NotDirectory | LookupFailed | InvalidPath

  // ---- one effective change ----

  // What becomes of node x when the row of edge e goes from was to now.
  function NodeAfter(node: NodeRecord, x: InodeId, parent: InodeId, was: Option<Dentry>, now: Option<Dentry>): NodeRecord {
    var refBy :=
      if now.Some? && now.value.target == Inode(x) then Some(now.value.id)
      else if was.Some? && was.value.target == Inode(x) && node.refBy == Some(was.value.id) then None
      else node.refBy;
    var rev := if x == parent then Some(node.Rev() + 1) else node.rev;
    node.(refBy := refBy, rev := rev)
  }

  function NodesAfter(nodes: map<InodeId, NodeRecord>, parent: InodeId, was: Option<Dentry>, now: Option<Dentry>):
    map<InodeId, NodeRecord>
  {
    map x | x in nodes :: NodeAfter(nodes[x], x, parent, was, now)
  }

  function RowAt(db: Db, e: Edge): Option<Dentry> {
    if e in db.dentries then Some(db.dentries[e]) else None
  }

  function Effect(db: Db, e: Edge, now: Option<Dentry>): Db {
    Db(NodesAfter(db.nodes, e.0, RowAt(db, e), now),
       if now.Some? then db.dentries[e := now.value] else db.dentries - {e},
       if now.Some? && e !in db.dentries then now.value.id else db.lastDentryId)
  }

  function NextInode(nodes: map<InodeId, NodeRecord>): (id: InodeId)
    ensures id !in nodes && id > 0
  {
    MaxKey(nodes.Keys) + 1
  }

  predicate IsGreatest(m: nat, s: set<nat>) {
    forall k :: k in s ==> k <= m
  }

  lemma {:induction false} MaxExists(s: set<nat>)
    ensures exists m :: IsGreatest(m, s) && (m in s || m == 0)
  {
    if s == {} {
      assert IsGreatest(0, s);
    } else {
      var x :| x in s;
      MaxExists(s - {x});
      var m :| IsGreatest(m, s - {x}) && (m in s - {x} || m == 0);
      var greatest := Max(m, x);
      forall k | k in s ensures k <= greatest {
        assert k == x || k in s - {x};
      }
      assert IsGreatest(greatest, s);
    }
  }

  // The largest key, or 0 for an empty table.
  function MaxKey(s: set<nat>): (m: nat)
    ensures forall k :: k in s ==> k <= m
    ensures m in s || m == 0
  {
    MaxExists(s);
    var m: nat :| IsGreatest(m, s) && (m in s || m == 0);
    m
  }

  // ---- the operations ----

  datatype NsOp =
    | CreateOp(parent: InodeId, name: Name, target: DentryTarget, expectedRev: nat)
    | DeleteOp(parent: InodeId, name: Name, expectedRev: nat)
    | ReplaceOp(parent: InodeId, name: Name, expectedOld: DentryTarget, target: DentryTarget, expectedRev: nat)
    | BumpOp(dir: InodeId, expectedRev: nat)
    | AllocOp(requested: InodeId, node: NodeRecord)
    | StateOp(id: InodeId, state: NodeState)

  function ParentCheck(db: Db, parent: InodeId, expectedRev: nat): Option<NsError> {
    if parent !in db.nodes then Some(ParentNotFound)
    else if db.nodes[parent].Rev() != expectedRev then Some(RevMismatch)
    else None
  }

  // Whether dentry id may become the one that refers to the target.
  function RefCheck(db: Db, target: DentryTarget, id: nat): Option<NsError> {
    if !target.Inode? then None
    else if exists f :: f in db.dentries && db.dentries[f].target == target then Some(Constraint)
    else OwnerCheck(db.nodes, target.id, id)
  }

  function OwnerCheck(nodes: map<InodeId, NodeRecord>, x: InodeId, id: nat): Option<NsError> {
    if x !in nodes then Some(InodeNotFound)
    else if nodes[x].refBy.None? || nodes[x].refBy == Some(id) then None
    else Some(AlreadyReferenced)
  }

  // Why an operation is refused, if it is.
  function Check(db: Db, op: NsOp): Option<NsError> {
    match op
    case CreateOp(parent, name, target, rev) =>
      if ParentCheck(db, parent, rev).Some? then ParentCheck(db, parent, rev)
      else if (parent, name) in db.dentries then Some(AlreadyExists)
      else RefCheck(db, target, db.lastDentryId + 1)
    case DeleteOp(parent, name, rev) => ParentCheck(db, parent, rev)
    case ReplaceOp(parent, name, expectedOld, target, rev) =>
      if ParentCheck(db, parent, rev).Some? then ParentCheck(db, parent, rev)
      else if (parent, name) !in db.dentries then Some(DentryNotFound)
      else if db.dentries[(parent, name)].target != expectedOld then Some(TargetMismatch)
      else if target == expectedOld then None
      else RefCheck(db, target, db.dentries[(parent, name)].id)
    case BumpOp(dir, rev) => if dir in db.nodes && db.nodes[dir].Rev() == rev then None else Some(RevMismatch)
    case AllocOp(requested, node) => if requested != 0 && requested in db.nodes then Some(Constraint) else None
    case StateOp(id, state) => if id in db.nodes then None else Some(InodeNotFound)
  }

  // Whether an accepted operation changes a dentry row: only then are the parent's revision and the cache touched.
  predicate Changes(db: Db, op: NsOp) {
    match op
    case CreateOp(_, _, _, _) => true
    case DeleteOp(parent, name, _) => (parent, name) in db.dentries
    case ReplaceOp(_, _, expectedOld, target, _) => target != expectedOld
    case _ => false
  }

  // The row an operation leaves at its edge.
  function NewRow(db: Db, op: NsOp): Option<Dentry> {
    match op
    case CreateOp(_, _, target, _) => Some(Dentry(db.lastDentryId + 1, target))
    case ReplaceOp(parent, name, _, target, _) =>
      if (parent, name) in db.dentries then Some(Dentry(db.dentries[(parent, name)].id, target)) else None
    case _ => None
  }

  function EdgeOf(op: NsOp): Edge {
    match op
    case CreateOp(parent, name, _, _) => (parent, name)
    case DeleteOp(parent, name, _) => (parent, name)
    case ReplaceOp(parent, name, _, _, _) => (parent, name)
    case _ => (0, "")
  }

  function Allocated(db: Db, requested: InodeId): InodeId {
    if requested == 0 then NextInode(db.nodes) else requested
  }

  // upsert_dentry_with_parent_rev: replace what is there, or create.
  function UpsertOp(db: Db, parent: InodeId, name: Name, target: DentryTarget, expectedRev: nat): NsOp {
    if (parent, name) in db.dentries
    then ReplaceOp(parent, name, db.dentries[(parent, name)].target, target, expectedRev)
    else CreateOp(parent, name, target, expectedRev)
  }

  // The tables after an operation: unchanged when it is refused.
  function After(db: Db, op: NsOp): Db {
    if Check(db, op).Some? then db
    else
      match op
      case BumpOp(dir, _) =>
        if dir in db.nodes then db.(nodes := db.nodes[dir := db.nodes[dir].(rev := Some(db.nodes[dir].Rev() + 1))]) else db
      case AllocOp(requested, node) => db.(nodes := db.nodes[Allocated(db, requested) := node])
      case StateOp(id, state) =>
        if id in db.nodes then db.(nodes := db.nodes[id := db.nodes[id].(state := state)]) else db
      case _ => if Changes(db, op) then Effect(db, EdgeOf(op), NewRow(db, op)) else db
  }

  // What an operation answers: an error, or whether it changed a row.
  function Outcome(db: Db, op: NsOp): Result<bool, NsError> {
    if Check(db, op).Some? then Err(Check(db, op).value) else Ok(Changes(db, op))
  }

  function RunOps(db: Db, ops: seq<NsOp>): Db {
    if ops == [] then db else After(RunOps(db, ops[..|ops| - 1]), ops[|ops| - 1])
  }

  // ---- back-pointers ----

  ghost predicate Points(db: Db, e: Edge, x: InodeId, d: nat) {
    e in db.dentries && db.dentries[e] == Dentry(d, Inode(x))
  }

  // Dentry ids are unique and not above the counter, and parents exist.
  ghost predicate Rows(db: Db) {
    (forall e :: e in db.dentries ==> e.0 in db.nodes && db.dentries[e].id <= db.lastDentryId) &&
    (forall e, f :: e in db.dentries && f in db.dentries && db.dentries[e].id == db.dentries[f].id ==> e == f)
  }

  // ref_by of an inode is d exactly when dentry d targets it.
  ghost predicate BackPointers(db: Db) {
    Rows(db) &&
    (forall e, x: InodeId, d: nat :: Points(db, e, x, d) ==> x in db.nodes && db.nodes[x].refBy == Some(d)) &&
    (forall x :: x in db.nodes && db.nodes[x].refBy.Some? ==> exists e :: Points(db, e, x, db.nodes[x].refBy.value))
  }

  // No inode has two dentries.
  lemma OneDentry(db: Db, e: Edge, f: Edge, x: InodeId)
    requires BackPointers(db) && e in db.dentries && f in db.dentries
    requires db.dentries[e].target == Inode(x) && db.dentries[f].target == Inode(x)
    ensures e == f
  {
    assert Points(db, e, x, db.dentries[e].id);
    assert Points(db, f, x, db.dentries[f].id);
  }

  // The new row's id is new or the edge's own, and an inode it targets is referred to by nobody.
  ghost predicate Free(db: Db, e: Edge, now: Option<Dentry>) {
    now.Some? ==>
      (if e in db.dentries then now.value.id == db.dentries[e].id else now.value.id == db.lastDentryId + 1) &&
      (now.value.target.Inode? ==>
        now.value.target.id in db.nodes && db.nodes[now.value.target.id].refBy.None?)
  }

  lemma EffectRows(db: Db, e: Edge, now: Option<Dentry>)
    requires Rows(db) && e.0 in db.nodes && Free(db, e, now)
    ensures Rows(Effect(db, e, now))
  {
  }

  lemma EffectPoints(db: Db, e: Edge, now: Option<Dentry>, f: Edge, x: InodeId, d: nat)
    ensures Points(Effect(db, e, now), f, x, d) <==>
      if f == e then now == Some(Dentry(d, Inode(x))) else Points(db, f, x, d)
  {
  }

  lemma EffectRefersForward(db: Db, e: Edge, now: Option<Dentry>, f: Edge, x: InodeId, d: nat)
    requires BackPointers(db) && e.0 in db.nodes && Free(db, e, now) && Points(Effect(db, e, now), f, x, d)
    ensures x in db.nodes && Effect(db, e, now).nodes[x].refBy == Some(d)
  {
    EffectPoints(db, e, now, f, x, d);
    if f != e && e in db.dentries && db.dentries[e].target == Inode(x) {
      OneDentry(db, e, f, x);
    }
  }

  lemma EffectRefersBack(db: Db, e: Edge, now: Option<Dentry>, x: InodeId)
    requires BackPointers(db) && e.0 in db.nodes && Free(db, e, now)
    requires x in db.nodes && Effect(db, e, now).nodes[x].refBy.Some?
    ensures exists f :: Points(Effect(db, e, now), f, x, Effect(db, e, now).nodes[x].refBy.value)
  {
    var d := Effect(db, e, now).nodes[x].refBy.value;
    var f := e;
    if now != Some(Dentry(d, Inode(x))) {
      f :| Points(db, f, x, d);
    }
    EffectPoints(db, e, now, f, x, d);
  }

  lemma EffectKeepsBackPointers(db: Db, e: Edge, now: Option<Dentry>)
    requires BackPointers(db) && e.0 in db.nodes && Free(db, e, now)
    ensures BackPointers(Effect(db, e, now))
  {
    EffectRows(db, e, now);
    forall f, x: InodeId, d: nat | Points(Effect(db, e, now), f, x, d)
      ensures x in Effect(db, e, now).nodes && Effect(db, e, now).nodes[x].refBy == Some(d)
    {
      EffectRefersForward(db, e, now, f, x, d);
    }
    forall x | x in Effect(db, e, now).nodes && Effect(db, e, now).nodes[x].refBy.Some?
      ensures exists f :: Points(Effect(db, e, now), f, x, Effect(db, e, now).nodes[x].refBy.value)
    {
      EffectRefersBack(db, e, now, x);
    }
    hide Effect, Points, Rows;
  }

  lemma ReferredTo(db: Db, x: InodeId)
    requires BackPointers(db) && x in db.nodes && db.nodes[x].refBy.Some?
    ensures exists f :: Points(db, f, x, db.nodes[x].refBy.value)
  {
  }

  // An accepted change points to an inode nobody refers to.
  lemma AcceptedIsFree(db: Db, op: NsOp)
    requires BackPointers(db) && Check(db, op).None? && Changes(db, op)
    ensures EdgeOf(op).0 in db.nodes && Free(db, EdgeOf(op), NewRow(db, op))
  {
    forall x | x in db.nodes && forall f :: f in db.dentries ==> db.dentries[f].target != Inode(x)
      ensures db.nodes[x].refBy.None?
    {
      if db.nodes[x].refBy.Some? { ReferredTo(db, x); }
    }
  }

  // ---- runs ----

  // No dentry refers to a newly allocated inode yet.
  ghost predicate FreshAllocs(ops: seq<NsOp>) {
    forall k :: 0 <= k < |ops| && ops[k].AllocOp? ==> ops[k].node.refBy.None?
  }

  lemma AfterKeepsBackPointers(db: Db, op: NsOp)
    requires BackPointers(db) && (op.AllocOp? ==> op.node.refBy.None?)
    ensures BackPointers(After(db, op))
  {
    if Check(db, op).None? && Changes(db, op) {
      AcceptedIsFree(db, op);
      hide BackPointers, Effect;
      EffectKeepsBackPointers(db, EdgeOf(op), NewRow(db, op));
    } else {
      hide Effect;
      SameRowsKeepBackPointers(db, After(db, op));
    }
  }

  // Inodes may change in any other way, and new ones may appear.
  lemma SameRowsKeepBackPointers(db: Db, db2: Db)
    requires BackPointers(db) && db2.dentries == db.dentries && db2.lastDentryId == db.lastDentryId
    requires forall x :: x in db.nodes ==> x in db2.nodes && db2.nodes[x].refBy == db.nodes[x].refBy
    requires forall x :: x in db2.nodes && x !in db.nodes ==> db2.nodes[x].refBy.None?
    ensures BackPointers(db2)
  {
    forall e, x: InodeId, d: nat ensures Points(db2, e, x, d) <==> Points(db, e, x, d) {
    }
    hide Points;
  }

  // Through any run of operations, ref_by of an inode is d exactly when dentry d targets it.
  lemma {:induction false} BackPointersAlways(db: Db, ops: seq<NsOp>)
    requires BackPointers(db) && FreshAllocs(ops)
    ensures BackPointers(RunOps(db, ops))
    decreases |ops|
  {
    if ops != [] {
      hide BackPointers, After;
      BackPointersAlways(db, ops[..|ops| - 1]);
      AfterKeepsBackPointers(RunOps(db, ops[..|ops| - 1]), ops[|ops| - 1]);
    }
  }

  // The operation is an effective change in dir, or a bump of its revision.
  predicate Raises(db: Db, op: NsOp, dir: InodeId) {
    if op.BumpOp? then op.dir == dir else Changes(db, op) && EdgeOf(op).0 == dir
  }

  // A refused operation changes nothing; an effective one raises the parent's revision by one, and any
  // row it changes is in that directory.
  lemma RevCountsChanges(db: Db, op: NsOp, dir: InodeId)
    requires dir in db.nodes
    ensures dir in After(db, op).nodes
    ensures Check(db, op).Some? ==> After(db, op) == db
    ensures After(db, op).nodes[dir].Rev() ==
      db.nodes[dir].Rev() + (if Check(db, op).None? && Raises(db, op, dir) then 1 else 0)
    ensures forall name :: RowAt(After(db, op), (dir, name)) != RowAt(db, (dir, name)) ==>
      Check(db, op).None? && Changes(db, op) && EdgeOf(op) == (dir, name)
  {
  }

  // A directory whose revision is the same after a run has the same rows after it, whatever ran.
  lemma {:induction false} EqualRevsEqualRows(db: Db, ops: seq<NsOp>, dir: InodeId)
    requires dir in db.nodes
    ensures dir in RunOps(db, ops).nodes && RunOps(db, ops).nodes[dir].Rev() >= db.nodes[dir].Rev()
    ensures RunOps(db, ops).nodes[dir].Rev() == db.nodes[dir].Rev() ==>
      forall name :: RowAt(RunOps(db, ops), (dir, name)) == RowAt(db, (dir, name))
    decreases |ops|
  {
    if ops != [] {
      var before := RunOps(db, ops[..|ops| - 1]);
      EqualRevsEqualRows(db, ops[..|ops| - 1], dir);
      hide After, Check, Raises, Changes, EdgeOf;
      RevCountsChanges(before, ops[|ops| - 1], dir);
    }
  }
}
