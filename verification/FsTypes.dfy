// Inode, dentry and object records of the file system metadata.
module FsTypes {
  import opened Bytes

  type InodeId = nat
  type Name = string
  type Path = seq<Name>
  type Edge = (InodeId, Name)

  datatype ObjKind = DirObj | FileObj | OtherObj

  datatype ObjId = ObjId(kind: ObjKind, hash: string)

  datatype NodeKind = File | Dir | Object

  datatype NodeState =
    | DirNormal
    | DirOverlay
    | FileNormal
    | Working(fbHandle: string, lastWriteAt: nat)
    | Cooling(fbHandle: string, closedAt: nat)
    | Linked(objId: ObjId, qcid: ObjId, filebufferId: string, linkedAt: nat)
    | Finalized(objId: ObjId, finalizedAt: nat)

  datatype NodeRecord = NodeRecord(
    refBy: Option<nat>, readOnly: bool, baseObj: Option<ObjId>, state: NodeState, rev: Option<nat>)
  {
    // NodeRecord::get_node_kind
    function Kind(): NodeKind {
      match state
      case DirNormal => Dir
      case DirOverlay => Dir
      case FileNormal => File
      case Working(_, _) => File
      case Cooling(_, _) => File
      case Linked(o, _, _, _) => ObjectKind(o)
      case Finalized(o, _) => ObjectKind(o)
    }

    // COALESCE(rev, 0)
    function Rev(): nat { if rev.Some? then rev.value else 0 }

    static function ObjectKind(o: ObjId): NodeKind {
      match o.kind
      case DirObj => Dir
      case FileObj => File
      case OtherObj => Object
    }
  }

  datatype DentryTarget =
    | Inode(id: InodeId)
    | SymLink(path: string)
    | Obj(objId: ObjId)
    | Tombstone

  datatype Dentry = Dentry(id: nat, target: DentryTarget)

  // The rows of the nodes and dentries tables, with the AUTOINCREMENT counter of the latter.
  datatype Db = Db(nodes: map<InodeId, NodeRecord>, dentries: map<Edge, Dentry>, lastDentryId: nat)

  // What the upper layer has at an edge.
  function TargetAt(db: Db, e: Edge): Option<DentryTarget> {
    if e in db.dentries then Some(db.dentries[e].target) else None
  }

  const ROOT: InodeId := 1

  // The directory objects of the named store: the children of each, by name.
  type DirObjects = map<(ObjId, Name), ObjId>
}
