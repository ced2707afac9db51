// Fenced write leases of inodes: acquire, renew, release, the reclaim of expired leases, and the
// compare-and-set of the state columns that reclaim interferes with.
module Lease {
  import opened Bytes
  import opened FsTypes

  type Session = string

  datatype LeaseError =
    | InodeNotFound | LeaseConflict | LeaseMismatch | StateConflict
    | FileExists | Unreadable | NotAFile | WrongState | BufferFailed

  datatype OpenFlag = Append | ContinueWrite | CreateExclusive | CreateOrTruncate | CreateOrAppend

  const I64_MAX: nat := 0x7FFF_FFFF_FFFF_FFFF

  const WRITE_LEASE_TTL_SECS: nat := 300

  // i64::saturating_add
  function Deadline(now: nat, ttl: nat): nat { Min(now + ttl, I64_MAX) }

  datatype StateTag = TagDirNormal | TagDirOverlay | TagFileNormal | TagWorking | TagCooling | TagLinked | TagFinalized

  // The columns of the nodes table that encode the state.
  datatype StateCols = StateCols(
    tag: StateTag, fbHandle: Option<string>, lastWriteAt: Option<nat>, closedAt: Option<nat>,
    linkedObjId: Option<ObjId>, linkedQcid: Option<ObjId>, linkedFilebufferId: Option<string>, linkedAt: Option<nat>,
    finalizedObjId: Option<ObjId>, finalizedAt: Option<nat>)

  datatype FileRow = FileRow(session: Option<Session>, fence: Option<nat>, expireAt: Option<nat>, cols: StateCols,
                            base: Option<ObjId>) {
    // COALESCE(lease_seq, 0)
    function Seq(): nat { if fence.Some? then fence.value else 0 }

    // Someone's lease has not expired.
    predicate Live(now: nat) { expireAt.Some? && expireAt.value > now }

    predicate Expired(now: nat) { expireAt.Some? && expireAt.value <= now }
  }

  type Rows = map<InodeId, FileRow>

  // ---- state columns ----

  const EmptyCols := StateCols(TagDirNormal, None, None, None, None, None, None, None, None, None)

  // node_state_cols
  function ColsOf(state: NodeState): StateCols {
    match state
    case DirNormal => EmptyCols
    case DirOverlay => EmptyCols.(tag := TagDirOverlay)
    case FileNormal => EmptyCols.(tag := TagFileNormal)
    case Working(fb, at) => EmptyCols.(tag := TagWorking, fbHandle := Some(fb), lastWriteAt := Some(at))
    case Cooling(fb, at) => EmptyCols.(tag := TagCooling, fbHandle := Some(fb), closedAt := Some(at))
    case Linked(o, q, fb, at) =>
      EmptyCols.(tag := TagLinked, linkedObjId := Some(o), linkedQcid := Some(q), linkedFilebufferId := Some(fb), linkedAt := Some(at))
    case Finalized(o, at) => EmptyCols.(tag := TagFinalized, finalizedObjId := Some(o), finalizedAt := Some(at))
  }

  // parse_node_state: None when a column the state needs is NULL.
  function ParseState(c: StateCols): Option<NodeState> {
    match c.tag
    case TagDirNormal => Some(DirNormal)
    case TagDirOverlay => Some(DirOverlay)
    case TagFileNormal => Some(FileNormal)
    case TagWorking => if c.fbHandle.Some? && c.lastWriteAt.Some? then Some(Working(c.fbHandle.value, c.lastWriteAt.value)) else None
    case TagCooling => if c.fbHandle.Some? && c.closedAt.Some? then Some(Cooling(c.fbHandle.value, c.closedAt.value)) else None
    case TagLinked =>
      if c.linkedObjId.Some? && c.linkedQcid.Some? && c.linkedFilebufferId.Some? && c.linkedAt.Some?
      then Some(Linked(c.linkedObjId.value, c.linkedQcid.value, c.linkedFilebufferId.value, c.linkedAt.value)) else None
    case TagFinalized =>
      if c.finalizedObjId.Some? && c.finalizedAt.Some? then Some(Finalized(c.finalizedObjId.value, c.finalizedAt.value)) else None
  }

  // Columns the state does not use are NULL.
  predicate Clean(c: StateCols) {
    (c.tag != TagWorking && c.tag != TagCooling ==> c.fbHandle.None?) &&
    (c.tag != TagWorking ==> c.lastWriteAt.None?) && (c.tag != TagCooling ==> c.closedAt.None?) &&
    (c.tag != TagLinked ==> c.linkedObjId.None? && c.linkedQcid.None? && c.linkedFilebufferId.None? && c.linkedAt.None?) &&
    (c.tag != TagFinalized ==> c.finalizedObjId.None? && c.finalizedAt.None?)
  }

  // A state read back from the columns it was written to is the same state.
  lemma StateRoundTrip(state: NodeState)
    ensures ParseState(ColsOf(state)) == Some(state) && Clean(ColsOf(state))
  {
  }

  // A compare-and-set that expects the state just read finds the row exactly if unused columns are NULL.
  lemma CasFindsReadState(c: StateCols)
    requires ParseState(c).Some?
    ensures c == ColsOf(ParseState(c).value) <==> Clean(c)
  {
  }

  // ---- the operations ----

  datatype LeaseOp =
    | AcquireOp(id: InodeId, session: Session, ttl: nat, now: nat)
    | RenewOp(id: InodeId, session: Session, fence: nat, ttl: nat, now: nat)
    | ReleaseOp(id: InodeId, session: Session, fence: nat)
    | ReclaimOp(now: nat)
    | CasOp(id: InodeId, state: NodeState, oldState: NodeState)
    | OpenOp(id: InodeId, flag: OpenFlag, session: Session, handle: string, buffered: bool, now: nat, at: nat)

  // One UPDATE of the reclaim task.
  function Reclaimed(row: FileRow, now: nat): FileRow {
    if row.Expired(now) then
      row.(session := None, expireAt := None,
           cols := if row.cols.tag == TagWorking then row.cols.(tag := TagCooling, closedAt := Some(now)) else row.cols)
    else row
  }

  // The session holds the fence.
  predicate Matches(row: FileRow, session: Session, fence: nat) {
    row.session == Some(session) && row.fence == Some(fence)
  }

  // What acquire grants: the running lease again, or the next fence once nobody holds one.
  function Grant(row: FileRow, session: Session, ttl: nat, now: nat): Result<FileRow, LeaseError> {
    if row.session == Some(session) && row.Live(now) then Ok(row.(expireAt := Some(Deadline(now, ttl))))
    else if row.expireAt.None? || row.Expired(now) then
      Ok(FileRow(Some(session), Some(row.Seq() + 1), Some(Deadline(now, ttl)), row.cols, row.base))
    else Err(LeaseConflict)
  }

  predicate IsFile(state: NodeState) {
    NodeRecord(None, false, None, state, None).Kind() == File
  }

  // What the flag asks of the state of an existing file.
  predicate FlagFits(flag: OpenFlag, state: NodeState) {
    if flag == ContinueWrite then state.Working? || state.Cooling? else !state.Working?
  }

  // The buffer a writer goes on with, else the one just allocated.
  function HandleFor(flag: OpenFlag, state: NodeState, newHandle: string): string {
    if flag != ContinueWrite then newHandle
    else match state
      case Working(handle, _) => handle
      case Cooling(handle, _) => handle
      case _ => newHandle
  }

  predicate Truncates(row: FileRow, flag: OpenFlag) {
    flag == CreateOrTruncate && row.base.Some?
  }

  // handle_get_inode followed by handle_set_inode without the base object: the row is written back from the
  // record, so the state columns are those of the state read.
  function Rewritten(row: FileRow): FileRow {
    match ParseState(row.cols)
    case Some(state) => row.(cols := ColsOf(state), base := None)
    case None => row
  }

  // handle_open_file_writer on an existing inode, one transaction: the lease, then for a truncating open of a
  // file with a base object the row is written back, then a compare-and-set from the state read to Working.
  function Open(row: FileRow, flag: OpenFlag, session: Session, handle: string, buffered: bool, now: nat, at: nat):
    Result<FileRow, LeaseError>
  {
    if flag == CreateExclusive then Err(FileExists)
    else
      match ParseState(row.cols)
      case None => Err(Unreadable)
      case Some(state) =>
        if !IsFile(state) then Err(NotAFile)
        else if !FlagFits(flag, state) then Err(WrongState)
        else if flag == ContinueWrite && !buffered then Err(BufferFailed)
        else
          match Grant(row, session, WRITE_LEASE_TTL_SECS, now)
          case Err(e) => Err(e)
          case Ok(held) =>
            if !buffered then Err(BufferFailed)
            else
              var ready := if Truncates(row, flag) then Rewritten(held) else held;
              Swap(ready, Working(HandleFor(flag, state, handle), at), state)
  }

  // The UPDATE of handle_update_inode_state.
  function Swap(row: FileRow, state: NodeState, oldState: NodeState): Result<FileRow, LeaseError> {
    if row.cols == ColsOf(oldState) then Ok(row.(cols := ColsOf(state))) else Err(StateConflict)
  }

  // The row an operation leaves, or why it is refused.
  function Apply(row: FileRow, op: LeaseOp): Result<FileRow, LeaseError> {
    match op
    case AcquireOp(_, session, ttl, now) => Grant(row, session, ttl, now)
    case RenewOp(_, session, fence, ttl, now) =>
      if Matches(row, session, fence) then Ok(row.(expireAt := Some(Deadline(now, ttl)))) else Err(LeaseMismatch)
    case ReleaseOp(_, session, fence) =>
      if Matches(row, session, fence) then Ok(row.(session := None, expireAt := None)) else Err(LeaseMismatch)
    case ReclaimOp(now) => Ok(Reclaimed(row, now))
    case CasOp(_, state, oldState) => Swap(row, state, oldState)
    case OpenOp(_, flag, session, handle, buffered, now, at) => Open(row, flag, session, handle, buffered, now, at)
  }

  predicate Concerns(op: LeaseOp, id: InodeId) {
    op.ReclaimOp? || op.id == id
  }

  function AfterOp(row: FileRow, id: InodeId, op: LeaseOp): FileRow {
    if Concerns(op, id) && Apply(row, op).Ok? then Apply(row, op).value else row
  }

  function RunRow(row: FileRow, id: InodeId, ops: seq<LeaseOp>): FileRow {
    if ops == [] then row else AfterOp(RunRow(row, id, ops[..|ops| - 1]), id, ops[|ops| - 1])
  }

  class LeaseTable {
    var rows: Rows

    constructor (rows: Rows)
      ensures this.rows == rows
    {
      this.rows := rows;
    }

    // acquire_file_lease_inner
    method Acquire(id: InodeId, session: Session, ttl: nat, now: nat) returns (r: Result<nat, LeaseError>)
      modifies this
      ensures rows.Keys == old(rows).Keys
      ensures forall x :: x in rows ==> rows[x] == AfterOp(old(rows)[x], x, AcquireOp(id, session, ttl, now))
      ensures r == if id !in old(rows) then Err(InodeNotFound)
                   else match Grant(old(rows)[id], session, ttl, now) { case Ok(row) => Ok(row.Seq()) case Err(e) => Err(e) }
    {
      var expireAt := Deadline(now, ttl);
      if id in rows && rows[id].session == Some(session) && rows[id].Live(now) {
        rows := rows[id := rows[id].(expireAt := Some(expireAt))];
        return Ok(rows[id].Seq());
      }
      if id in rows && (rows[id].expireAt.None? || rows[id].Expired(now)) {
        rows := rows[id := rows[id].(session := Some(session), fence := Some(rows[id].Seq() + 1), expireAt := Some(expireAt))];
        return Ok(rows[id].Seq());
      }
      if id !in rows { return Err(InodeNotFound); }
      return Err(LeaseConflict);
    }

    // renew_file_lease_inner
    method Renew(id: InodeId, session: Session, fence: nat, ttl: nat, now: nat) returns (error: Option<LeaseError>)
      modifies this
      ensures rows.Keys == old(rows).Keys
      ensures forall x :: x in rows ==> rows[x] == AfterOp(old(rows)[x], x, RenewOp(id, session, fence, ttl, now))
      ensures error == if id !in rows then Some(InodeNotFound)
                       else if Matches(old(rows)[id], session, fence) then None else Some(LeaseMismatch)
    {
      if id in rows && rows[id].session == Some(session) && rows[id].fence == Some(fence) {
        rows := rows[id := rows[id].(expireAt := Some(Deadline(now, ttl)))];
        return None;
      }
      return Some(if id !in rows then InodeNotFound else LeaseMismatch);
    }

    // release_file_lease_inner
    method Release(id: InodeId, session: Session, fence: nat) returns (error: Option<LeaseError>)
      modifies this
      ensures rows.Keys == old(rows).Keys
      ensures forall x :: x in rows ==> rows[x] == AfterOp(old(rows)[x], x, ReleaseOp(id, session, fence))
      ensures error == if id !in rows then Some(InodeNotFound)
                       else if Matches(old(rows)[id], session, fence) then None else Some(LeaseMismatch)
    {
      if id in rows && rows[id].session == Some(session) && rows[id].fence == Some(fence) {
        rows := rows[id := rows[id].(session := None, expireAt := None)];
        return None;
      }
      return Some(if id !in rows then InodeNotFound else LeaseMismatch);
    }

    // reclaim_expired_write_leases: how many leases were reclaimed
    method Reclaim(now: nat) returns (reclaimed: nat)
      modifies this
      ensures rows.Keys == old(rows).Keys
      ensures forall x :: x in rows ==> rows[x] == AfterOp(old(rows)[x], x, ReclaimOp(now))
      ensures reclaimed == |set x | x in old(rows) && old(rows)[x].Expired(now)|
    {
      var expired := set x | x in rows && rows[x].Expired(now);
      reclaimed := |expired|;
      rows := map x | x in rows :: if x in expired then Reclaimed(rows[x], now) else rows[x];
    }

    // handle_update_inode_state
    method UpdateState(id: InodeId, state: NodeState, oldState: NodeState) returns (error: Option<LeaseError>)
      modifies this
      ensures rows.Keys == old(rows).Keys
      ensures forall x :: x in rows ==> rows[x] == AfterOp(old(rows)[x], x, CasOp(id, state, oldState))
      ensures error == if id !in rows then Some(InodeNotFound)
                       else if old(rows)[id].cols == ColsOf(oldState) then None else Some(StateConflict)
    {
      if id in rows && rows[id].cols == ColsOf(oldState) {
        rows := rows[id := rows[id].(cols := ColsOf(state))];
        return None;
      }
      return Some(if id !in rows then InodeNotFound else StateConflict);
    }

    // handle_set_inode of the node just read, without its base object
    method SetWithoutBase(id: InodeId, state: NodeState)
      requires id in rows && ParseState(rows[id].cols) == Some(state)
      modifies this
      ensures rows == old(rows)[id := Rewritten(old(rows)[id])]
    {
      rows := rows[id := rows[id].(cols := ColsOf(state), base := None)];
    }

    // The lease, the truncation and the change to Working; on an error the tables are left half-changed for
    // the transaction to roll back.
    method TakeForWriting(id: InodeId, flag: OpenFlag, session: Session, state: NodeState, handle: string,
                          buffered: bool, now: nat, at: nat)
      returns (error: Option<LeaseError>)
      requires id in rows && ParseState(rows[id].cols) == Some(state)
      requires IsFile(state) && FlagFits(flag, state) && flag != CreateExclusive && (flag == ContinueWrite ==> buffered)
      modifies this
      ensures var r := Open(old(rows)[id], flag, session, handle, buffered, now, at);
        match r { case Ok(row) => error == None && rows == old(rows)[id := row] case Err(e) => error == Some(e) }
    {
      hide ColsOf, ParseState, IsFile, FlagFits, HandleFor, FileRow.Live, FileRow.Expired;
      var fence := Acquire(id, session, WRITE_LEASE_TTL_SECS, now);
      if fence.Err? { return Some(fence.error); }
      if !buffered { return Some(BufferFailed); }
      ghost var held := rows;
      assert held == old(rows)[id := Grant(old(rows)[id], session, WRITE_LEASE_TTL_SECS, now).value];
      if flag == CreateOrTruncate && rows[id].base.Some? { SetWithoutBase(id, state); }
      ghost var ready := rows;
      error := UpdateState(id, Working(HandleFor(flag, state, handle), at), state);
      assert error.None? ==> rows == ready[id := ready[id].(cols := ColsOf(Working(HandleFor(flag, state, handle), at)))];
    }

    // handle_open_file_writer on the inode a name leads to already
    method OpenFileWriter(id: InodeId, flag: OpenFlag, session: Session, handle: string, buffered: bool, now: nat, at: nat)
      returns (r: Result<string, LeaseError>)
      modifies this
      ensures rows.Keys == old(rows).Keys
      ensures forall x :: x in rows ==>
        rows[x] == AfterOp(old(rows)[x], x, OpenOp(id, flag, session, handle, buffered, now, at))
      ensures r.Ok? <==> id in rows && Open(old(rows)[id], flag, session, handle, buffered, now, at).Ok?
      ensures r.Ok? ==> ParseState(rows[id].cols) == Some(Working(r.value, at))
      ensures r.Err? ==> rows == old(rows)
      ensures r.Err? && id in rows ==> Open(rows[id], flag, session, handle, buffered, now, at) == Err(r.error)
      ensures id !in rows ==> r == Err(if flag == CreateExclusive then FileExists else InodeNotFound)
    {
      hide Grant, Swap, Truncates, Rewritten;
      var saved := rows;
      if flag == CreateExclusive { return Err(FileExists); }
      if id !in rows { return Err(InodeNotFound); }
      var read := ParseState(rows[id].cols);
      if read.None? { return Err(Unreadable); }
      var state := read.value;
      if !IsFile(state) { return Err(NotAFile); }
      if !FlagFits(flag, state) { return Err(WrongState); }
      if flag == ContinueWrite && !buffered { return Err(BufferFailed); }
      var error := TakeForWriting(id, flag, session, state, handle, buffered, now, at);
      if error.Some? {
        rows := saved;
        return Err(error.value);
      }
      OpenedIsWorking(saved[id], OpenOp(id, flag, session, handle, buffered, now, at));
      StateRoundTrip(Working(HandleFor(flag, state, handle), at));
      return Ok(HandleFor(flag, state, handle));
    }
  }

  // ---- fencing ----

  // An acquire, or an open, which begins with one.
  predicate Takes(op: LeaseOp, id: InodeId) {
    (op.AcquireOp? || op.OpenOp?) && op.id == id
  }

  // The operation gives the inode a new fence.
  predicate NewGrant(row: FileRow, id: InodeId, op: LeaseOp) {
    Takes(op, id) && !row.Live(op.now) && Apply(row, op).Ok?
  }

  // What an open that goes through does to the lease is what an acquire does.
  lemma OpenIsAcquire(row: FileRow, flag: OpenFlag, session: Session, handle: string, buffered: bool, now: nat, at: nat)
    requires Open(row, flag, session, handle, buffered, now, at).Ok?
    ensures var after := Open(row, flag, session, handle, buffered, now, at).value;
            var granted := Grant(row, session, WRITE_LEASE_TTL_SECS, now);
            granted.Ok? && after.session == granted.value.session && after.fence == granted.value.fence &&
            after.expireAt == granted.value.expireAt
  {
    hide ColsOf, ParseState;
  }

  // How many new fences a run gives.
  function NewGrants(row: FileRow, id: InodeId, ops: seq<LeaseOp>): nat {
    if ops == [] then 0
    else
      var front := ops[..|ops| - 1];
      NewGrants(row, id, front) + (if NewGrant(RunRow(row, id, front), id, ops[|ops| - 1]) then 1 else 0)
  }

  lemma SeqStep(row: FileRow, id: InodeId, op: LeaseOp)
    ensures AfterOp(row, id, op).Seq() == row.Seq() + (if NewGrant(row, id, op) then 1 else 0)
  {
    if op.OpenOp? && Apply(row, op).Ok? {
      OpenIsAcquire(row, op.flag, op.session, op.handle, op.buffered, op.now, op.at);
    }
    hide Open, ColsOf, ParseState;
  }

  // The sequence number never drops: it counts the new grants.
  lemma {:induction false} SeqCountsGrants(row: FileRow, id: InodeId, ops: seq<LeaseOp>)
    ensures RunRow(row, id, ops).Seq() == row.Seq() + NewGrants(row, id, ops)
    decreases |ops|
  {
    if ops != [] {
      var before, op := RunRow(row, id, ops[..|ops| - 1]), ops[|ops| - 1];
      SeqCountsGrants(row, id, ops[..|ops| - 1]);
      SeqStep(before, id, op);
    }
  }

  // While the sequence number is at fence, nobody but session can hold it.
  predicate FencedFor(row: FileRow, fence: nat, session: Session) {
    row.Seq() >= fence && (row.Seq() == fence ==> row.session == None || row.session == Some(session))
  }

  lemma {:induction false} FencedForever(row: FileRow, id: InodeId, ops: seq<LeaseOp>, fence: nat, session: Session)
    requires FencedFor(row, fence, session)
    ensures FencedFor(RunRow(row, id, ops), fence, session)
    decreases |ops|
  {
    if ops != [] {
      FencedForever(row, id, ops[..|ops| - 1], fence, session);
      FencedStep(RunRow(row, id, ops[..|ops| - 1]), id, ops[|ops| - 1], fence, session);
    }
  }

  lemma FencedStep(row: FileRow, id: InodeId, op: LeaseOp, fence: nat, session: Session)
    requires FencedFor(row, fence, session)
    ensures FencedFor(AfterOp(row, id, op), fence, session)
  {
    if op.OpenOp? && Apply(row, op).Ok? {
      OpenIsAcquire(row, op.flag, op.session, op.handle, op.buffered, op.now, op.at);
    }
    hide Open, ColsOf, ParseState;
  }

  // What a grant leaves is the lease of its session.
  lemma TakenIsHeld(row: FileRow, id: InodeId, op: LeaseOp)
    requires Takes(op, id) && Apply(row, op).Ok?
    ensures AfterOp(row, id, op) == Apply(row, op).value
    ensures AfterOp(row, id, op).session == Some(op.session) && AfterOp(row, id, op).expireAt.Some?
    ensures row.Live(op.now) ==> row.session == Some(op.session)
  {
    if op.OpenOp? { OpenIsAcquire(row, op.flag, op.session, op.handle, op.buffered, op.now, op.at); }
    hide Open, ColsOf, ParseState;
  }

  // Two grants with the same fence, whatever happened in between, went to the same session.
  lemma OneSessionPerFence(row: FileRow, id: InodeId, first: LeaseOp, ops: seq<LeaseOp>, second: LeaseOp)
    requires Takes(first, id) && Takes(second, id)
    requires Apply(row, first).Ok?
    requires Apply(RunRow(AfterOp(row, id, first), id, ops), second).Ok?
    requires Apply(RunRow(AfterOp(row, id, first), id, ops), second).value.Seq() == Apply(row, first).value.Seq()
    ensures first.session == second.session
  {
    var granted := AfterOp(row, id, first);
    TakenIsHeld(row, id, first);
    hide RunRow, Open, Apply;
    FencedForever(granted, id, ops, granted.Seq(), first.session);
    FencedStep(RunRow(granted, id, ops), id, second, granted.Seq(), first.session);
    TakenIsHeld(RunRow(granted, id, ops), id, second);
  }

  // An operation that finds the lease running, and does not release it for its holder.
  predicate Undisturbing(row: FileRow, op: LeaseOp) {
    match op
    case AcquireOp(_, _, _, now) => row.Live(now)
    case ReclaimOp(now) => row.Live(now)
    case OpenOp(_, _, _, _, _, now, _) => row.Live(now)
    case ReleaseOp(_, session, fence) => !Matches(row, session, fence)
    case _ => true
  }

  // Every operation of the run on the inode comes before the deadline of that moment.
  ghost predicate Undisturbed(row: FileRow, id: InodeId, ops: seq<LeaseOp>) {
    forall k :: 0 <= k < |ops| && Concerns(ops[k], id) ==> Undisturbing(RunRow(row, id, ops[..k]), ops[k])
  }

  lemma HeldStep(row: FileRow, id: InodeId, op: LeaseOp)
    requires row.session.Some? && row.expireAt.Some? && Undisturbing(row, op)
    ensures var after := AfterOp(row, id, op);
            after.session == row.session && after.fence == row.fence && after.expireAt.Some?
  {
    if op.OpenOp? && Apply(row, op).Ok? {
      OpenIsAcquire(row, op.flag, op.session, op.handle, op.buffered, op.now, op.at);
    }
    hide Open, ColsOf, ParseState;
  }

  lemma {:induction false} HeldThrough(row: FileRow, id: InodeId, ops: seq<LeaseOp>, k: nat)
    requires row.session.Some? && row.expireAt.Some? && Undisturbed(row, id, ops) && k <= |ops|
    ensures var held := RunRow(row, id, ops[..k]);
            held.session == row.session && held.fence == row.fence && held.expireAt.Some?
  {
    if k > 0 {
      HeldThrough(row, id, ops, k - 1);
      assert ops[..k][..k - 1] == ops[..k - 1];
      var before := RunRow(row, id, ops[..k - 1]);
      if Concerns(ops[k - 1], id) {
        assert Undisturbing(before, ops[k - 1]);
        HeldStep(before, id, ops[k - 1]);
      }
    }
  }

  // After a grant, over any run before the row's deadline without the holder's release: the row keeps the
  // holder's session and fence, an acquire goes through exactly for the holder, and nobody else can open, renew
  // or release.
  lemma LiveLeaseExcludes(row: FileRow, id: InodeId, grant: LeaseOp, ops: seq<LeaseOp>)
    requires Takes(grant, id) && Apply(row, grant).Ok?
    requires Undisturbed(AfterOp(row, id, grant), id, ops)
    ensures var granted := AfterOp(row, id, grant);
            RunRow(granted, id, ops).session == Some(grant.session) && RunRow(granted, id, ops).fence == granted.fence
    ensures forall k :: 0 <= k < |ops| && !ops[k].ReclaimOp? && !ops[k].CasOp? && ops[k].id == id ==>
      (Apply(RunRow(AfterOp(row, id, grant), id, ops[..k]), ops[k]).Ok? ==> ops[k].session == grant.session) &&
      (ops[k].AcquireOp? && ops[k].session == grant.session ==> Apply(RunRow(AfterOp(row, id, grant), id, ops[..k]), ops[k]).Ok?)
  {
    var granted := AfterOp(row, id, grant);
    TakenIsHeld(row, id, grant);
    HeldThrough(granted, id, ops, |ops|);
    assert ops[..|ops|] == ops;
    hide RunRow, Open, AfterOp;
    forall k | 0 <= k < |ops| && !ops[k].ReclaimOp? && !ops[k].CasOp? && ops[k].id == id
      ensures (Apply(RunRow(granted, id, ops[..k]), ops[k]).Ok? ==> ops[k].session == grant.session) &&
              (ops[k].AcquireOp? && ops[k].session == grant.session ==> Apply(RunRow(granted, id, ops[..k]), ops[k]).Ok?)
    {
      HeldThrough(granted, id, ops, k);
      assert Undisturbing(RunRow(granted, id, ops[..k]), ops[k]);
      if ops[k].OpenOp? && Apply(RunRow(granted, id, ops[..k]), ops[k]).Ok? { TakenIsHeld(RunRow(granted, id, ops[..k]), id, ops[k]); }
    }
  }

  // ---- how long a lease lasts ----

  // An operation of the holder that sets the deadline: an acquire, a renewal, or an open.
  predicate Extends(op: LeaseOp, id: InodeId, session: Session) {
    (op.AcquireOp? || op.RenewOp? || op.OpenOp?) && op.id == id && op.session == session
  }

  function TtlOf(op: LeaseOp): nat
    requires op.AcquireOp? || op.RenewOp? || op.OpenOp?
  {
    if op.OpenOp? then WRITE_LEASE_TTL_SECS else op.ttl
  }

  // Every operation on the inode is another session's, or changes states, and those that look at the clock come
  // before time t.
  predicate OthersBefore(ops: seq<LeaseOp>, id: InodeId, session: Session, t: nat) {
    forall k :: 0 <= k < |ops| && Concerns(ops[k], id) ==> OtherBefore(ops[k], session, t)
  }

  predicate OtherBefore(op: LeaseOp, session: Session, t: nat) {
    match op
    case AcquireOp(_, other, _, now) => other != session && now < t
    case OpenOp(_, _, other, _, _, now, _) => other != session && now < t
    case RenewOp(_, other, _, _, _) => other != session
    case ReleaseOp(_, other, _) => other != session
    case ReclaimOp(now) => now < t
    case CasOp(_, _, _) => true
  }

  // session holds the fence until time t.
  predicate HeldUntil(row: FileRow, session: Session, fence: Option<nat>, t: nat) {
    row.session == Some(session) && row.fence == fence && row.expireAt == Some(t)
  }

  // An operation that gives or extends a lease at time now for ttl makes it last until now + ttl.
  lemma ExtendedUntil(row: FileRow, id: InodeId, op: LeaseOp, session: Session)
    requires Extends(op, id, session) && Apply(row, op).Ok? && op.now + TtlOf(op) <= I64_MAX
    ensures HeldUntil(AfterOp(row, id, op), session, AfterOp(row, id, op).fence, op.now + TtlOf(op))
    ensures op.RenewOp? ==> AfterOp(row, id, op).fence == Some(op.fence)
  {
    if op.OpenOp? { OpenIsAcquire(row, op.flag, op.session, op.handle, op.buffered, op.now, op.at); }
    hide Open, ColsOf, ParseState;
  }

  lemma HeldStaysHeld(row: FileRow, id: InodeId, op: LeaseOp, session: Session, fence: Option<nat>, t: nat)
    requires HeldUntil(row, session, fence, t) && (Concerns(op, id) ==> OtherBefore(op, session, t))
    ensures HeldUntil(AfterOp(row, id, op), session, fence, t)
    ensures Concerns(op, id) && !op.ReclaimOp? && !op.CasOp? ==> Apply(row, op).Err?
    ensures op.ReclaimOp? && Concerns(op, id) ==> AfterOp(row, id, op) == row
  {
    if op.OpenOp? && op.id == id && Apply(row, op).Ok? {
      OpenIsAcquire(row, op.flag, op.session, op.handle, op.buffered, op.now, op.at);
    }
    hide Open, ColsOf, ParseState;
  }

  lemma {:induction false} HeldThroughOthers(row: FileRow, id: InodeId, ops: seq<LeaseOp>, k: nat, session: Session,
                                             fence: Option<nat>, t: nat)
    requires HeldUntil(row, session, fence, t) && OthersBefore(ops, id, session, t) && k <= |ops|
    ensures HeldUntil(RunRow(row, id, ops[..k]), session, fence, t)
  {
    if k > 0 {
      HeldThroughOthers(row, id, ops, k - 1, session, fence, t);
      assert ops[..k][..k - 1] == ops[..k - 1];
      HeldStaysHeld(RunRow(row, id, ops[..k - 1]), id, ops[k - 1], session, fence, t);
    }
  }

  // A lease taken or renewed at time now lasts for its ttl: whatever others do before now + ttl, the row keeps the
  // session, the fence and the deadline, every acquire and open of theirs is refused, and no reclaim touches it.
  lemma LeaseLasts(row: FileRow, id: InodeId, take: LeaseOp, session: Session, ops: seq<LeaseOp>)
    requires Extends(take, id, session) && Apply(row, take).Ok? && take.now + TtlOf(take) <= I64_MAX
    requires OthersBefore(ops, id, session, take.now + TtlOf(take))
    ensures var held := AfterOp(row, id, take);
            HeldUntil(RunRow(held, id, ops), session, held.fence, take.now + TtlOf(take)) &&
            forall k :: 0 <= k < |ops| && Concerns(ops[k], id) ==>
              (ops[k].AcquireOp? || ops[k].OpenOp? ==> Apply(RunRow(held, id, ops[..k]), ops[k]).Err?) &&
              (ops[k].ReclaimOp? ==> RunRow(held, id, ops[..k + 1]) == RunRow(held, id, ops[..k]))
  {
    var held, t := AfterOp(row, id, take), take.now + TtlOf(take);
    ExtendedUntil(row, id, take, session);
    HeldThroughOthers(held, id, ops, |ops|, session, held.fence, t);
    assert ops[..|ops|] == ops;
    forall k | 0 <= k < |ops| && Concerns(ops[k], id)
      ensures (ops[k].AcquireOp? || ops[k].OpenOp? ==> Apply(RunRow(held, id, ops[..k]), ops[k]).Err?) &&
              (ops[k].ReclaimOp? ==> RunRow(held, id, ops[..k + 1]) == RunRow(held, id, ops[..k]))
    {
      HeldThroughOthers(held, id, ops, k, session, held.fence, t);
      assert ops[..k + 1][..k] == ops[..k];
      HeldStaysHeld(RunRow(held, id, ops[..k]), id, ops[k], session, held.fence, t);
      hide Apply, HeldUntil, OtherBefore;
    }
    hide RunRow, Apply, AfterOp;
  }

  // And no longer: from now + ttl on, not renewed, it goes to whoever acquires next, with the next fence, whether
  // it was reclaimed in the meantime or not.
  lemma LeaseEnds(row: FileRow, id: InodeId, take: LeaseOp, session: Session, ops: seq<LeaseOp>, reclaims: seq<LeaseOp>,
                  next: LeaseOp)
    requires Extends(take, id, session) && Apply(row, take).Ok? && take.now + TtlOf(take) <= I64_MAX
    requires OthersBefore(ops, id, session, take.now + TtlOf(take))
    requires forall k :: 0 <= k < |reclaims| ==> reclaims[k].ReclaimOp?
    requires next.AcquireOp? && next.id == id && take.now + TtlOf(take) <= next.now
    ensures var held := AfterOp(row, id, take);
            var r := Apply(RunRow(RunRow(held, id, ops), id, reclaims), next);
            r.Ok? && r.value.session == Some(next.session) && r.value.Seq() == held.Seq() + 1
  {
    var held, t := AfterOp(row, id, take), take.now + TtlOf(take);
    ExtendedUntil(row, id, take, session);
    HeldThroughOthers(held, id, ops, |ops|, session, held.fence, t);
    assert ops[..|ops|] == ops;
    Reclaims(RunRow(held, id, ops), id, reclaims, t);
    hide RunRow, AfterOp, Extends;
  }

  // While it lasts, the holder can renew it and release it; and what is released goes to whoever acquires next,
  // at any time, with the next fence.
  lemma HolderMay(row: FileRow, id: InodeId, take: LeaseOp, session: Session, ops: seq<LeaseOp>, fence: nat,
                  renew: LeaseOp, next: LeaseOp)
    requires Extends(take, id, session) && Apply(row, take).Ok? && take.now + TtlOf(take) <= I64_MAX
    requires AfterOp(row, id, take).fence == Some(fence) && OthersBefore(ops, id, session, take.now + TtlOf(take))
    requires renew.RenewOp? && renew.id == id && renew.session == session && renew.fence == fence
    requires next.AcquireOp? && next.id == id
    ensures var held, release := RunRow(AfterOp(row, id, take), id, ops), ReleaseOp(id, session, fence);
            Apply(held, renew).Ok? && Apply(held, release).Ok? &&
            var r := Apply(AfterOp(held, id, release), next);
            r.Ok? && r.value.session == Some(next.session) && r.value.Seq() == fence + 1
  {
    ExtendedUntil(row, id, take, session);
    HeldThroughOthers(AfterOp(row, id, take), id, ops, |ops|, session, Some(fence), take.now + TtlOf(take));
    assert ops[..|ops|] == ops;
    hide RunRow, Extends, TtlOf;
  }

  // Once a reclaim finds the lease expired it is gone: nobody can renew or release it, and a file in use cools down.
  lemma ReclaimedIsLost(row: FileRow, id: InodeId, now: nat, session: Session, fence: nat, ttl: nat, later: nat)
    requires row.Expired(now)
    ensures var after := AfterOp(row, id, ReclaimOp(now));
            after.session == None && after.expireAt == None && after.fence == row.fence && after.base == row.base &&
            after.cols == (if row.cols.tag == TagWorking then row.cols.(tag := TagCooling, closedAt := Some(now)) else row.cols) &&
            Apply(after, RenewOp(id, session, fence, ttl, later)).Err? && Apply(after, ReleaseOp(id, session, fence)).Err?
  {
  }

  lemma {:induction false} Reclaims(row: FileRow, id: InodeId, reclaims: seq<LeaseOp>, t: nat)
    requires forall k :: 0 <= k < |reclaims| ==> reclaims[k].ReclaimOp?
    requires row.expireAt == Some(t) || row.expireAt == None
    ensures var after := RunRow(row, id, reclaims);
            after.Seq() == row.Seq() && (after.expireAt == Some(t) || after.expireAt == None)
    decreases |reclaims|
  {
    if reclaims != [] { Reclaims(row, id, reclaims[..|reclaims| - 1], t); }
  }

  // Once a newer fence was granted, the old one never again renews or releases, whatever happens.
  lemma SupersededFence(row: FileRow, id: InodeId, grant: LeaseOp, ops: seq<LeaseOp>, session: Session, fence: nat)
    requires NewGrant(row, id, grant) && fence <= row.Seq()
    ensures !Matches(RunRow(AfterOp(row, id, grant), id, ops), session, fence)
  {
    SeqStep(row, id, grant);
    SeqCountsGrants(AfterOp(row, id, grant), id, ops);
    hide RunRow, NewGrants, Apply;
  }

  // ---- reclaim against compare-and-set ----

  // A row that was reclaimed out of Working: Cooling, with the last write still recorded.
  predicate Leftover(c: StateCols) {
    c.tag == TagCooling && c.lastWriteAt.Some?
  }

  // An expired Working row is reclaimed.
  predicate ReclaimsWorking(row: FileRow, op: LeaseOp) {
    op.ReclaimOp? && row.Expired(op.now) && row.cols.tag == TagWorking && row.cols.lastWriteAt.Some?
  }

  // A truncating open that goes through writes the row back first.
  predicate Rewrites(row: FileRow, id: InodeId, op: LeaseOp) {
    op.OpenOp? && op.id == id && Truncates(row, op.flag) && Apply(row, op).Ok?
  }

  // A row's unused columns stay NULL through every operation except the reclaim of an expired Working row.
  lemma OnlyReclaimDirties(row: FileRow, id: InodeId, op: LeaseOp)
    requires Clean(row.cols)
    ensures Clean(AfterOp(row, id, op).cols) <==> !ReclaimsWorking(row, op)
    ensures !Clean(AfterOp(row, id, op).cols) ==> Leftover(AfterOp(row, id, op).cols)
  {
    if op.OpenOp? && Apply(row, op).Ok? { OpenedIsWorking(row, op); }
    hide Open, ParseState;
  }

  lemma OpenedIsWorking(row: FileRow, op: LeaseOp)
    requires op.OpenOp? && Apply(row, op).Ok?
    ensures ParseState(row.cols).Some?
    ensures Apply(row, op).value.cols == ColsOf(Working(HandleFor(op.flag, ParseState(row.cols).value, op.handle), op.at))
    ensures Clean(Apply(row, op).value.cols)
  {
    StateRoundTrip(Working(HandleFor(op.flag, ParseState(row.cols).value, op.handle), op.at));
    hide ColsOf, Clean, Grant;
  }

  // What a flag asks of a file: one in use can only be continued, one cooling can be opened in any way, and one
  // that nobody has written since cannot be continued.
  predicate OpensAs(flag: OpenFlag, state: NodeState) {
    match state
    case Working(_, _) => flag == ContinueWrite
    case Cooling(_, _) => true
    case FileNormal => flag != ContinueWrite
    case Linked(o, _, _, _) => o.kind == FileObj && flag != ContinueWrite
    case Finalized(o, _) => o.kind == FileObj && flag != ContinueWrite
    case _ => false
  }

  // Exactly when an existing file can be opened for writing: its state suits the flag, the buffer service
  // answers, the lease is granted, and either no unused column is set or the open truncates a base object.
  lemma OpenAccepted(row: FileRow, flag: OpenFlag, session: Session, handle: string, buffered: bool, now: nat, at: nat)
    ensures Open(row, flag, session, handle, buffered, now, at).Ok? <==>
      flag != CreateExclusive && ParseState(row.cols).Some? && OpensAs(flag, ParseState(row.cols).value) && buffered && Grant(row, session, WRITE_LEASE_TTL_SECS, now).Ok? &&
      (Clean(row.cols) || Truncates(row, flag))
  {
    if ParseState(row.cols).Some? {
      CasFindsReadState(row.cols);
      FitsAreOpens(flag, ParseState(row.cols).value);
    }
    hide ColsOf, ParseState, Clean, FlagFits, IsFile, OpensAs;
  }

  lemma FitsAreOpens(flag: OpenFlag, state: NodeState)
    ensures IsFile(state) && FlagFits(flag, state) <==> OpensAs(flag, state)
  {
  }

  // An open that goes through leaves the file in use since then: a continued write with the buffer it had, any
  // other open with the new buffer.  A file in use or cooling can be continued, and one in use only so.
  lemma OpenedWith(row: FileRow, flag: OpenFlag, session: Session, handle: string, now: nat, at: nat)
    requires Open(row, flag, session, handle, true, now, at).Ok?
    ensures var after := ParseState(Open(row, flag, session, handle, true, now, at).value.cols);
            match ParseState(row.cols)
            case Some(Working(held, _)) => flag == ContinueWrite && after == Some(Working(held, at))
            case Some(Cooling(held, _)) => after == Some(Working(if flag == ContinueWrite then held else handle, at))
            case Some(_) => flag != ContinueWrite && after == Some(Working(handle, at))
            case None => false
    ensures Open(row, flag, session, handle, true, now, at).value.base == if flag == CreateOrTruncate then None else row.base
  {
    var state := ParseState(row.cols).value;
    OpenedIsWorking(row, OpenOp(0, flag, session, handle, true, now, at));
    StateRoundTrip(Working(HandleFor(flag, state, handle), at));
    hide ColsOf, ParseState, Clean;
  }

  // A leftover row: only a truncating open of a file with a base object gets it going again.
  lemma LeftoverOpens(row: FileRow, flag: OpenFlag, session: Session, handle: string, now: nat, at: nat)
    requires Leftover(row.cols) && ParseState(row.cols).Some? && Grant(row, session, WRITE_LEASE_TTL_SECS, now).Ok?
    ensures Open(row, flag, session, handle, true, now, at).Ok? <==> flag == CreateOrTruncate && row.base.Some?
  {
    OpenAccepted(row, flag, session, handle, true, now, at);
    hide Open, Grant;
  }

  lemma LeftoverStep(row: FileRow, id: InodeId, op: LeaseOp)
    requires Leftover(row.cols)
    ensures if Rewrites(row, id, op) then Clean(AfterOp(row, id, op).cols) else Leftover(AfterOp(row, id, op).cols)
  {
    if op.OpenOp? && Apply(row, op).Ok? {
      OpenAccepted(row, op.flag, op.session, op.handle, op.buffered, op.now, op.at);
      OpenedIsWorking(row, op);
    }
    hide Open, ParseState;
  }

  // No truncating open goes through in the run.
  predicate NeverRewritten(row: FileRow, id: InodeId, ops: seq<LeaseOp>) {
    ops == [] ||
    (NeverRewritten(row, id, ops[..|ops| - 1]) && !Rewrites(RunRow(row, id, ops[..|ops| - 1]), id, ops[|ops| - 1]))
  }

  // After such a reclaim, and until the row is written back, no compare-and-set succeeds, whatever states it names.
  lemma {:induction false} LeftoverStays(row: FileRow, id: InodeId, ops: seq<LeaseOp>, state: NodeState, oldState: NodeState)
    requires Leftover(row.cols) && NeverRewritten(row, id, ops)
    ensures Leftover(RunRow(row, id, ops).cols)
    ensures Apply(RunRow(row, id, ops), CasOp(id, state, oldState)).Err?
    decreases |ops|
  {
    if ops != [] {
      LeftoverStays(row, id, ops[..|ops| - 1], state, oldState);
      LeftoverStep(RunRow(row, id, ops[..|ops| - 1]), id, ops[|ops| - 1]);
    }
    hide Rewrites, AfterOp;
  }

  // Since the row was last written back, if ever, it was reclaimed while Working.
  predicate StuckAfter(row: FileRow, id: InodeId, ops: seq<LeaseOp>) {
    ops != [] &&
    var before, op := RunRow(row, id, ops[..|ops| - 1]), ops[|ops| - 1];
    ReclaimsWorking(before, op) || (StuckAfter(row, id, ops[..|ops| - 1]) && !Rewrites(before, id, op))
  }

  lemma {:induction false} StuckIsLeftover(row: FileRow, id: InodeId, ops: seq<LeaseOp>)
    requires Clean(row.cols)
    ensures if StuckAfter(row, id, ops) then Leftover(RunRow(row, id, ops).cols) else Clean(RunRow(row, id, ops).cols)
    decreases |ops|
  {
    if ops != [] {
      var front, op := ops[..|ops| - 1], ops[|ops| - 1];
      StuckIsLeftover(row, id, front);
      var before := RunRow(row, id, front);
      if StuckAfter(row, id, front) {
        LeftoverStep(before, id, op);
        assert !ReclaimsWorking(before, op);
      } else {
        OnlyReclaimDirties(before, id, op);
      }
    }
    hide Clean, Leftover, AfterOp, Rewrites, ReclaimsWorking;
  }

  // Over any run: a compare-and-set that expects the state just read is accepted exactly if the row was not
  // reclaimed while the file was in use, or was written back by a truncating open since.
  lemma ReadStateAccepted(row: FileRow, id: InodeId, ops: seq<LeaseOp>, next: NodeState)
    requires Clean(row.cols) && ParseState(RunRow(row, id, ops).cols).Some?
    ensures Apply(RunRow(row, id, ops), CasOp(id, next, ParseState(RunRow(row, id, ops).cols).value)).Ok? <==>
      !StuckAfter(row, id, ops)
  {
    StuckIsLeftover(row, id, ops);
    CasFindsReadState(RunRow(row, id, ops).cols);
    hide StuckAfter, RunRow, ColsOf, ParseState;
  }

  // An example: a file in use whose lease ran out reads as cooling, and the compare-and-set that expects
  // exactly what was read is refused, as is every open but a truncating one of a file with a base object.
  lemma ReclaimedFileIsStuck(row: FileRow, fb: string, wrote: nat, now: nat, next: NodeState)
    requires row.cols == ColsOf(Working(fb, wrote)) && row.Expired(now)
    ensures ParseState(Reclaimed(row, now).cols) == Some(Cooling(fb, now))
    ensures Apply(Reclaimed(row, now), CasOp(0, next, Cooling(fb, now))).Err?
    ensures forall flag, session, handle, later, at ::
      Open(Reclaimed(row, now), flag, session, handle, true, later, at).Ok? <==> flag == CreateOrTruncate && row.base.Some?
  {
    var stuck := Reclaimed(row, now);
    assert Leftover(stuck.cols) && ParseState(stuck.cols) == Some(Cooling(fb, now)) && stuck.expireAt.None?;
    hide Reclaimed, ColsOf, ParseState, Leftover, Open;
    forall flag, session, handle, later, at
      ensures Open(stuck, flag, session, handle, true, later, at).Ok? <==> flag == CreateOrTruncate && row.base.Some?
    {
      LeftoverOpens(stuck, flag, session, handle, later, at);
    }
  }
}
