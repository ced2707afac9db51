// What the dentry operations promise a caller: no lost updates, what a name leads to afterwards, and what shows
// again when a dentry is gone.
module NamespaceLaws {
  import opened Bytes
  import opened FsTypes
  import opened Resolver
  import opened NamespaceState

  predicate IsRowOp(op: NsOp) {
    op.CreateOp? || op.DeleteOp? || op.ReplaceOp?
  }

  // ---- revisions ----

  // An accepted create, delete or replace named the current revision of its directory, and found in the row what
  // it says: nothing to create over, the target to replace.
  lemma AcceptedSawCurrent(db: Db, op: NsOp)
    requires IsRowOp(op) && Check(db, op).None?
    ensures op.parent in db.nodes && db.nodes[op.parent].Rev() == op.expectedRev
    ensures op.CreateOp? ==> (op.parent, op.name) !in db.dentries
    ensures op.ReplaceOp? ==>
      (op.parent, op.name) in db.dentries && db.dentries[(op.parent, op.name)].target == op.expectedOld
  {
  }

  // Of two such operations on one directory that name the same revision, the second is refused once the first has
  // changed a row, whatever ran in between, and changes nothing.
  lemma NoLostUpdate(db: Db, first: NsOp, ops: seq<NsOp>, second: NsOp)
    requires IsRowOp(first) && IsRowOp(second)
    requires first.parent == second.parent && first.expectedRev == second.expectedRev
    requires Outcome(db, first) == Ok(true)
    ensures var now := RunOps(After(db, first), ops);
            Outcome(now, second) == Err(RevMismatch) && After(now, second) == now
  {
    AcceptedSawCurrent(db, first);
    RevCountsChanges(db, first, first.parent);
    RaisesItsDirectory(db, first);
    EqualRevsEqualRows(After(db, first), ops, first.parent);
    hide RunOps;
    StaleIsRefused(RunOps(After(db, first), ops), second);
  }

  lemma RaisesItsDirectory(db: Db, op: NsOp)
    requires IsRowOp(op) && Changes(db, op)
    ensures Raises(db, op, op.parent)
  {
  }

  lemma StaleIsRefused(db: Db, op: NsOp)
    requires IsRowOp(op) && op.parent in db.nodes && db.nodes[op.parent].Rev() != op.expectedRev
    ensures Outcome(db, op) == Err(RevMismatch) && After(db, op) == db
  {
  }

  // A bump is accepted exactly for a directory that is there with the revision named.
  lemma BumpSawCurrent(db: Db, dir: InodeId, rev: nat)
    ensures Outcome(db, BumpOp(dir, rev)).Ok? <==> dir in db.nodes && db.nodes[dir].Rev() == rev
    ensures Outcome(db, BumpOp(dir, rev)).Ok? ==> After(db, BumpOp(dir, rev)).nodes[dir].Rev() == rev + 1
  {
  }

  // ---- what is there afterwards ----

  // An accepted create or replace leaves its target under its name, an accepted delete leaves nothing there, and
  // every other name is as before.
  lemma AcceptedLeaves(db: Db, op: NsOp)
    requires IsRowOp(op) && Check(db, op).None?
    ensures TargetAt(After(db, op), (op.parent, op.name)) == if op.DeleteOp? then None else Some(op.target)
    ensures forall e :: e != (op.parent, op.name) ==> TargetAt(After(db, op), e) == TargetAt(db, e)
  {
    hide NodesAfter;
  }

  // With right back-pointers, a free inode, a link, an object or a tombstone can be put at a free name of a
  // directory that is named with its current revision.
  lemma CreateAccepted(db: Db, parent: InodeId, name: Name, target: DentryTarget)
    requires BackPointers(db) && parent in db.nodes && (parent, name) !in db.dentries
    requires target.Inode? ==> target.id in db.nodes && db.nodes[target.id].refBy.None?
    ensures Outcome(db, CreateOp(parent, name, target, db.nodes[parent].Rev())) == Ok(true)
  {
    NobodyRefers(db, target);
    hide BackPointers;
  }

  lemma NobodyRefers(db: Db, target: DentryTarget)
    requires BackPointers(db)
    requires target.Inode? ==> target.id in db.nodes && db.nodes[target.id].refBy.None?
    ensures target.Inode? ==> forall f :: f in db.dentries ==> db.dentries[f].target != target
  {
    forall f | f in db.dentries ensures target.Inode? ==> db.dentries[f].target != target {
      TargetHasReferrer(db, f, target);
    }
  }

  lemma TargetHasReferrer(db: Db, f: Edge, target: DentryTarget)
    requires BackPointers(db) && f in db.dentries
    ensures target.Inode? && target.id in db.nodes && db.dentries[f].target == target ==> db.nodes[target.id].refBy.Some?
  {
    assert target.Inode? && db.dentries[f].target == target ==> Points(db, f, target.id, db.dentries[f].id);
  }

  // The same for replacing and deleting what is there.
  lemma ReplaceAccepted(db: Db, parent: InodeId, name: Name, target: DentryTarget)
    requires BackPointers(db) && parent in db.nodes && (parent, name) in db.dentries
    requires target.Inode? ==> target.id in db.nodes && db.nodes[target.id].refBy.None?
    ensures var held := db.dentries[(parent, name)].target;
            Outcome(db, ReplaceOp(parent, name, held, target, db.nodes[parent].Rev())) == Ok(target != held)
    ensures Outcome(db, DeleteOp(parent, name, db.nodes[parent].Rev())) == Ok(true)
  {
    NobodyRefers(db, target);
    hide BackPointers;
  }

  // ---- the base shows again ----

  // Lookups in a directory whose record differs in back-pointer and revision only find the same in its base.
  lemma SameBase(db: Db, db2: Db, objects: DirObjects, dir: InodeId, name: Name)
    requires dir in db.nodes && dir in db2.nodes && (dir, name) !in db2.dentries
    requires db2.nodes[dir].state == db.nodes[dir].state && db2.nodes[dir].baseObj == db.nodes[dir].baseObj
    ensures db.nodes[dir].Kind() == Dir ==> Lookup(db2, objects, dir, name) == LookupBase(objects, db.nodes[dir].baseObj, name)
  {
  }

  // Deleting a dentry uncovers what the base object has under the name, and the name can be created again; a
  // tombstone covers it.
  lemma DeleteUncovers(db: Db, objects: DirObjects, dir: InodeId, name: Name, rev: nat)
    requires BackPointers(db) && Outcome(db, DeleteOp(dir, name, rev)).Ok?
    ensures var db2 := After(db, DeleteOp(dir, name, rev));
      (dir, name) !in db2.dentries && dir in db2.nodes &&
      (db.nodes[dir].Kind() == Dir ==> Lookup(db2, objects, dir, name) == LookupBase(objects, db.nodes[dir].baseObj, name)) &&
      forall link :: Outcome(db2, CreateOp(dir, name, SymLink(link), db2.nodes[dir].Rev())) == Ok(true)
  {
    var op := DeleteOp(dir, name, rev);
    var db2 := After(db, op);
    AcceptedSawCurrent(db, op);
    AcceptedLeaves(db, op);
    AfterKeepsBackPointers(db, op);
    RowOpKeepsRecord(db, op, dir);
    hide After, Check, BackPointers;
    SameBase(db, db2, objects, dir, name);
    forall link ensures Outcome(db2, CreateOp(dir, name, SymLink(link), db2.nodes[dir].Rev())) == Ok(true) {
      CreateAccepted(db2, dir, name, SymLink(link));
    }
  }

  lemma RowOpKeepsRecord(db: Db, op: NsOp, x: InodeId)
    requires IsRowOp(op) && x in db.nodes
    ensures x in After(db, op).nodes
    ensures After(db, op).nodes[x].state == db.nodes[x].state && After(db, op).nodes[x].baseObj == db.nodes[x].baseObj &&
            After(db, op).nodes[x].readOnly == db.nodes[x].readOnly
  {
  }

  // An upper dentry decides alone: a tombstone hides what the base has.
  lemma UpperHidesBase(db: Db, objects: DirObjects, dir: InodeId, name: Name)
    requires (dir, name) in db.dentries
    ensures Lookup(db, objects, dir, name) == Found(db.dentries[(dir, name)].target)
  {
  }
}
