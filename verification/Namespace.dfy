// The nodes and dentries tables updated row by row, each operation inside a savepoint.
module Namespace {
  import opened Bytes
  import opened FsTypes
  import opened NamespaceState

  class Tables {
    var nodes: map<InodeId, NodeRecord>
    var dentries: map<Edge, Dentry>
    var lastDentryId: nat

    function S(): Db
      reads this
    {
      Db(nodes, dentries, lastDentryId)
    }

    constructor (db: Db)
      ensures S() == db
    {
      nodes, dentries, lastDentryId := db.nodes, db.dentries, db.lastDentryId;
    }

    method RollbackTo(saved: Db)
      modifies this
      ensures S() == saved
    {
      nodes, dentries, lastDentryId := saved.nodes, saved.dentries, saved.lastDentryId;
    }

    // UPDATE nodes SET rev = COALESCE(rev, 0) + 1
    method RaiseRev(dir: InodeId)
      requires dir in nodes
      modifies this`nodes
      ensures nodes == old(nodes)[dir := old(nodes)[dir].(rev := Some(old(nodes)[dir].Rev() + 1))]
    {
      nodes := nodes[dir := nodes[dir].(rev := Some(nodes[dir].Rev() + 1))];
    }

    // UPDATE nodes SET ref_by = NULL WHERE inode_id = id AND ref_by = dentryId
    method ClearRef(id: InodeId, dentryId: nat)
      modifies this`nodes
      ensures nodes == if id in old(nodes) && old(nodes)[id].refBy == Some(dentryId)
                       then old(nodes)[id := old(nodes)[id].(refBy := None)] else old(nodes)
    {
      if id in nodes && nodes[id].refBy == Some(dentryId) {
        nodes := nodes[id := nodes[id].(refBy := None)];
      }
    }

    // UPDATE nodes SET ref_by = dentryId WHERE inode_id = id AND (ref_by IS NULL OR ref_by = dentryId)
    method TakeRef(id: InodeId, dentryId: nat) returns (error: Option<NsError>)
      modifies this`nodes
      ensures error == OwnerCheck(old(nodes), id, dentryId)
      ensures nodes == if error.None? && id in old(nodes)
                       then old(nodes)[id := old(nodes)[id].(refBy := Some(dentryId))] else old(nodes)
    {
      if id in nodes && (nodes[id].refBy.None? || nodes[id].refBy == Some(dentryId)) {
        nodes := nodes[id := nodes[id].(refBy := Some(dentryId))];
        return None;
      }
      return Some(if id !in nodes then InodeNotFound else AlreadyReferenced);
    }

    // The unique index on inode targets.
    predicate Targeted(target: DentryTarget)
      reads this
    {
      target.Inode? && exists f :: f in dentries && dentries[f].target == target
    }

    // The back-pointers and the parent's revision, when the row of an edge in parent goes from was to now.
    method Repoint(parent: InodeId, was: Option<Dentry>, now: Dentry) returns (error: Option<NsError>)
      requires parent in nodes && (was.Some? ==> was.value.target != now.target)
      modifies this`nodes
      ensures error == if now.target.Inode? then OwnerCheck(old(nodes), now.target.id, now.id) else None
      ensures error.None? ==> nodes == NodesAfter(old(nodes), parent, was, Some(now))
    {
      if was.Some? && was.value.target.Inode? { ClearRef(was.value.target.id, was.value.id); }
      error := None;
      if now.target.Inode? { error := TakeRef(now.target.id, now.id); }
      if error.None? { RaiseRev(parent); }
    }

    // The writes shared by create and replace.  On an error the tables are left half-changed for the
    // savepoint to roll back.
    method PutRow(e: Edge, was: Option<Dentry>, now: Dentry) returns (error: Option<NsError>)
      requires e.0 in nodes && RowAt(S(), e) == was && !Targeted(now.target)
      requires was.Some? ==> was.value.target != now.target
      modifies this
      ensures error == RefCheck(old(S()), now.target, now.id)
      ensures error.None? ==> S() == Effect(old(S()), e, Some(now))
    {
      hide NodesAfter, OwnerCheck;
      if e !in dentries { lastDentryId := now.id; }
      dentries := dentries[e := now];
      error := Repoint(e.0, was, now);
    }

    // handle_create_dentry
    method CreateDentry(parent: InodeId, name: Name, target: DentryTarget, expectedRev: nat)
      returns (r: Result<bool, NsError>)
      modifies this
      ensures r == Outcome(old(S()), CreateOp(parent, name, target, expectedRev))
      ensures S() == After(old(S()), CreateOp(parent, name, target, expectedRev))
    {
      var saved := S();
      if parent !in nodes { return Err(ParentNotFound); }
      if nodes[parent].Rev() != expectedRev { return Err(RevMismatch); }
      if (parent, name) in dentries { return Err(AlreadyExists); }
      if Targeted(target) { return Err(Constraint); }
      var error := PutRow((parent, name), None, Dentry(lastDentryId + 1, target));
      if error.Some? {
        RollbackTo(saved);
        return Err(error.value);
      }
      return Ok(true);
    }

    // handle_delete_dentry
    method DeleteDentry(parent: InodeId, name: Name, expectedRev: nat) returns (r: Result<bool, NsError>)
      modifies this
      ensures r == Outcome(old(S()), DeleteOp(parent, name, expectedRev))
      ensures S() == After(old(S()), DeleteOp(parent, name, expectedRev))
    {
      if parent !in nodes { return Err(ParentNotFound); }
      if nodes[parent].Rev() != expectedRev { return Err(RevMismatch); }
      var removed := (parent, name) in dentries;
      if removed {
        var was := dentries[(parent, name)];
        dentries := dentries - {(parent, name)};
        if was.target.Inode? { ClearRef(was.target.id, was.id); }
        RaiseRev(parent);
      }
      return Ok(removed);
    }

    // handle_replace_target
    method ReplaceTarget(parent: InodeId, name: Name, expectedOld: DentryTarget, target: DentryTarget, expectedRev: nat)
      returns (r: Result<bool, NsError>)
      modifies this
      ensures r == Outcome(old(S()), ReplaceOp(parent, name, expectedOld, target, expectedRev))
      ensures S() == After(old(S()), ReplaceOp(parent, name, expectedOld, target, expectedRev))
    {
      var saved := S();
      if parent !in nodes { return Err(ParentNotFound); }
      if nodes[parent].Rev() != expectedRev { return Err(RevMismatch); }
      if (parent, name) !in dentries { return Err(DentryNotFound); }
      var was := dentries[(parent, name)];
      if was.target != expectedOld { return Err(TargetMismatch); }
      if target == was.target { return Ok(false); }
      if Targeted(target) { return Err(Constraint); }
      var error := PutRow((parent, name), Some(was), Dentry(was.id, target));
      if error.Some? {
        RollbackTo(saved);
        return Err(error.value);
      }
      return Ok(true);
    }

    // upsert_dentry_with_parent_rev
    method Upsert(parent: InodeId, name: Name, target: DentryTarget, expectedRev: nat) returns (r: Result<bool, NsError>)
      modifies this
      ensures r == Outcome(old(S()), UpsertOp(old(S()), parent, name, target, expectedRev))
      ensures S() == After(old(S()), UpsertOp(old(S()), parent, name, target, expectedRev))
    {
      hide Outcome, After;
      if (parent, name) in dentries {
        r := ReplaceTarget(parent, name, dentries[(parent, name)].target, target, expectedRev);
      } else {
        r := CreateDentry(parent, name, target, expectedRev);
      }
    }

    // handle_bump_dir_rev
    method BumpDirRev(dir: InodeId, expectedRev: nat) returns (r: Result<nat, NsError>)
      modifies this`nodes
      ensures S() == After(old(S()), BumpOp(dir, expectedRev))
      ensures r.Err? <==> Check(old(S()), BumpOp(dir, expectedRev)).Some?
      ensures r.Ok? ==> dir in nodes && r.value == nodes[dir].Rev()
    {
      if dir !in nodes || nodes[dir].Rev() != expectedRev { return Err(RevMismatch); }
      RaiseRev(dir);
      return Ok(expectedRev + 1);
    }

    // UPDATE nodes SET state = ... WHERE inode_id = id
    method SetState(id: InodeId, state: NodeState) returns (r: Result<(), NsError>)
      modifies this`nodes
      ensures S() == After(old(S()), StateOp(id, state))
      ensures r.Err? <==> Check(old(S()), StateOp(id, state)).Some?
    {
      if id !in nodes { return Err(InodeNotFound); }
      nodes := nodes[id := nodes[id].(state := state)];
      return Ok(());
    }

    // handle_alloc_inode
    method AllocInode(requested: InodeId, node: NodeRecord) returns (r: Result<InodeId, NsError>)
      modifies this`nodes
      ensures S() == After(old(S()), AllocOp(requested, node))
      ensures r.Err? <==> requested != 0 && requested in old(nodes)
      ensures r.Ok? ==> r.value !in old(nodes) && r.value in nodes && r.value == Allocated(old(S()), requested)
    {
      if requested != 0 && requested in nodes { return Err(Constraint); }
      var id := if requested == 0 then NextInode(nodes) else requested;
      nodes := nodes[id := node];
      return Ok(id);
    }
  }
}
