// Reference counts of objects: bumps, the list of long-unreferenced objects, and their deletion.
module ObjStats {
  import opened Bytes
  import opened FsTypes

  // One row of obj_stat, without updated_at.
  datatype ObjStat = ObjStat(refCount: nat, zeroSince: Option<nat>)

  type Stats = map<ObjId, ObjStat>

  datatype StatError = WouldBeNegative

  // The clock is read once an operation; a failed bump changes nothing.
  datatype StatOp =
    | BumpOp(obj: ObjId, delta: int, now: nat)
    | DeleteOp(obj: ObjId, now: nat)

  // The row of an object after a bump.
  function Bumped(row: Option<ObjStat>, delta: int, now: nat): Result<ObjStat, StatError> {
    if delta > 0 then
      Ok(ObjStat((if row.Some? then row.value.refCount else 0) + delta, None))
    else if row.None? || row.value.refCount + delta < 0 then Err(WouldBeNegative)
    else
      var n := row.value.refCount + delta;
      var since := if row.value.zeroSince.Some? then row.value.zeroSince.value else now;
      Ok(ObjStat(n, if n == 0 then Some(since) else None))
  }

  function RowOf(stats: Stats, obj: ObjId): Option<ObjStat> {
    if obj in stats then Some(stats[obj]) else None
  }

  // What an operation leaves of the row of obj.
  function AfterOp(row: Option<ObjStat>, obj: ObjId, op: StatOp): Option<ObjStat> {
    if op.obj != obj then row
    else
      match op
      case BumpOp(_, delta, now) => if Bumped(row, delta, now).Ok? then Some(Bumped(row, delta, now).value) else row
      case DeleteOp(_, _) => if row.Some? && row.value.refCount == 0 then None else row
  }

  function RunRow(row: Option<ObjStat>, obj: ObjId, ops: seq<StatOp>): Option<ObjStat> {
    if ops == [] then row else AfterOp(RunRow(row, obj, ops[..|ops| - 1]), obj, ops[|ops| - 1])
  }

  // An object with references survives every run of deletes; one without is gone once one of them is its own.
  lemma {:induction false} ReferencedSurvives(row: ObjStat, obj: ObjId, ops: seq<StatOp>)
    requires forall k :: 0 <= k < |ops| ==> ops[k].DeleteOp?
    ensures row.refCount > 0 ==> RunRow(Some(row), obj, ops) == Some(row)
    ensures row.refCount == 0 ==> RunRow(Some(row), obj, ops) == if Names(ops, obj) then None else Some(row)
  {
    if ops != [] { ReferencedSurvives(row, obj, ops[..|ops| - 1]); }
  }

  predicate Names(ops: seq<StatOp>, obj: ObjId) {
    ops != [] && (Names(ops[..|ops| - 1], obj) || ops[|ops| - 1].obj == obj)
  }

  // Listed objects have been at zero since ts or before.
  predicate Listable(stats: Stats, obj: ObjId, ts: nat) {
    obj in stats && stats[obj].refCount == 0 && stats[obj].zeroSince.Some? && stats[obj].zeroSince.value <= ts
  }

  function Since(stats: Stats, obj: ObjId): nat {
    if obj in stats && stats[obj].zeroSince.Some? then stats[obj].zeroSince.value else 0
  }

  class StatTable {
    var stats: Stats

    constructor ()
      ensures stats == map[]
    {
      stats := map[];
    }

    // handle_obj_stat_bump
    method Bump(obj: ObjId, delta: int, now: nat) returns (r: Result<nat, StatError>)
      modifies this
      ensures forall o :: RowOf(stats, o) == AfterOp(RowOf(old(stats), o), o, BumpOp(obj, delta, now))
      ensures r.Ok? <==> Bumped(RowOf(old(stats), obj), delta, now).Ok?
      ensures r.Ok? ==> obj in stats && r.value == stats[obj].refCount
    {
      if delta > 0 {
        if obj in stats {
          stats := stats[obj := ObjStat(stats[obj].refCount + delta, None)];
        } else {
          stats := stats[obj := ObjStat(delta, None)];
        }
      } else {
        if obj !in stats || stats[obj].refCount + delta < 0 { return Err(WouldBeNegative); }
        var n := stats[obj].refCount + delta;
        var since := stats[obj].zeroSince;
        stats := stats[obj := ObjStat(n, if n != 0 then None else if since.Some? then since else Some(now))];
      }
      return Ok(stats[obj].refCount);
    }

    // handle_obj_stat_delete_if_zero
    method DeleteIfZero(obj: ObjId, now: nat) returns (removed: bool)
      modifies this
      ensures forall o :: RowOf(stats, o) == AfterOp(RowOf(old(stats), o), o, DeleteOp(obj, now))
      ensures removed <==> obj in old(stats) && old(stats)[obj].refCount == 0
    {
      removed := obj in stats && stats[obj].refCount == 0;
      if removed { stats := stats - {obj}; }
    }

    // handle_obj_stat_list_zero: the longest at zero first, at most limit of them
    method ListZero(ts: nat, limit: nat) returns (objs: seq<ObjId>)
      ensures forall o :: o in objs ==> Listable(stats, o, ts)
      ensures forall i, j :: 0 <= i < j < |objs| ==>
        objs[i] != objs[j] && Since(stats, objs[i]) <= Since(stats, objs[j])
      ensures |objs| <= limit
      ensures forall o :: Listable(stats, o, ts) && o !in objs ==>
        |objs| == limit && forall i :: 0 <= i < |objs| ==> Since(stats, objs[i]) <= Since(stats, o)
    {
      objs := [];
      var left := set o | o in stats && Listable(stats, o, ts);
      while left != {} && |objs| < limit
        invariant forall o :: o in left ==> Listable(stats, o, ts)
        invariant forall o :: o in objs ==> Listable(stats, o, ts) && o !in left
        invariant forall o :: Listable(stats, o, ts) ==> o in left || o in objs
        invariant forall i, j :: 0 <= i < j < |objs| ==>
          objs[i] != objs[j] && Since(stats, objs[i]) <= Since(stats, objs[j])
        invariant forall i, o :: 0 <= i < |objs| && o in left ==> Since(stats, objs[i]) <= Since(stats, o)
        invariant |objs| <= limit
        decreases |left|
      {
        var next := Earliest(left, ts);
        objs := objs + [next];
        left := left - {next};
      }
    }

    // The row an ORDER BY zero_since yields next.
    method Earliest(left: set<ObjId>, ts: nat) returns (next: ObjId)
      requires left != {} && forall o :: o in left ==> Listable(stats, o, ts)
      ensures next in left && forall o :: o in left ==> Since(stats, next) <= Since(stats, o)
    {
      next :| next in left;
      var rest := left - {next};
      while rest != {}
        invariant rest <= left && next in left
        invariant forall o :: o in left && o !in rest ==> Since(stats, next) <= Since(stats, o)
        decreases |rest|
      {
        var o :| o in rest;
        if Since(stats, o) < Since(stats, next) { next := o; }
        rest := rest - {o};
      }
    }
  }

  // ---- conservation ----

  // The accepted deltas since the row last came into being.
  function Accepted(row: Option<ObjStat>, obj: ObjId, ops: seq<StatOp>): int {
    if ops == [] then (if row.Some? then row.value.refCount else 0)
    else
      var front, op := ops[..|ops| - 1], ops[|ops| - 1];
      var before := RunRow(row, obj, front);
      var accepted := op.obj == obj && op.BumpOp? && Bumped(before, op.delta, op.now).Ok?;
      if AfterOp(before, obj, op).None? then 0
      else if accepted then Accepted(row, obj, front) + op.delta
      else Accepted(row, obj, front)
  }

  // The count is the sum of the accepted deltas since creation.
  lemma {:induction false} CountIsSum(row: Option<ObjStat>, obj: ObjId, ops: seq<StatOp>)
    ensures Accepted(row, obj, ops) == if RunRow(row, obj, ops).Some? then RunRow(row, obj, ops).value.refCount else 0
    decreases |ops|
  {
    if ops != [] { CountIsSum(row, obj, ops[..|ops| - 1]); }
  }

  // A bump is accepted exactly if it does not take the count below zero and, unless it adds, there is a row.
  lemma BumpAccepted(row: Option<ObjStat>, delta: int, now: nat)
    ensures Bumped(row, delta, now).Ok? <==> delta > 0 || (row.Some? && row.value.refCount + delta >= 0)
    ensures Bumped(row, delta, now).Ok? ==>
      Bumped(row, delta, now).value.refCount == (if row.Some? then row.value.refCount else 0) + delta
  {
  }

  // zero_since is set exactly when the count is zero.
  predicate ZeroMarked(row: Option<ObjStat>) {
    row.Some? ==> (row.value.zeroSince.Some? <==> row.value.refCount == 0)
  }

  lemma {:induction false} ZeroMarkedAlways(row: Option<ObjStat>, obj: ObjId, ops: seq<StatOp>)
    requires ZeroMarked(row)
    ensures ZeroMarked(RunRow(row, obj, ops))
    decreases |ops|
  {
    if ops != [] { ZeroMarkedAlways(row, obj, ops[..|ops| - 1]); }
  }

  // ---- how long an object has been at zero ----

  // Operations see a clock that does not go back.
  ghost predicate Clocked(ops: seq<StatOp>) {
    forall i, j :: 0 <= i <= j < |ops| ==> ops[i].now <= ops[j].now
  }

  predicate AtZero(row: Option<ObjStat>) {
    row.Some? && row.value.refCount == 0
  }

  // From step k on the row was there with count zero.
  ghost predicate ZeroFrom(obj: ObjId, ops: seq<StatOp>, k: nat) {
    k <= |ops| && forall j :: k <= j <= |ops| ==> AtZero(RunRow(None, obj, ops[..j]))
  }

  // Step k brought the count to zero, at the time zero_since records.
  ghost predicate ZeroStart(obj: ObjId, ops: seq<StatOp>, k: nat) {
    0 < k <= |ops| && ops[k - 1].obj == obj && ops[k - 1].BumpOp? && RunRow(None, obj, ops).Some? &&
    RunRow(None, obj, ops).value.zeroSince == Some(ops[k - 1].now) && !AtZero(RunRow(None, obj, ops[..k - 1]))
  }

  // From an empty table: an object at zero has been at zero ever since the step whose time zero_since records.
  lemma {:induction false} ZeroContinuously(obj: ObjId, ops: seq<StatOp>)
    requires AtZero(RunRow(None, obj, ops))
    ensures exists k: nat :: ZeroStart(obj, ops, k) && ZeroFrom(obj, ops, k)
    decreases |ops|
  {
    var front, op := ops[..|ops| - 1], ops[|ops| - 1];
    var before := RunRow(None, obj, front);
    ZeroMarkedAlways(None, obj, front);
    if AtZero(before) {
      ZeroContinuously(obj, front);
      var k: nat :| ZeroStart(obj, front, k) && ZeroFrom(obj, front, k);
      ZeroFromLonger(obj, ops, k);
      assert front[..k - 1] == ops[..k - 1];
      assert ZeroStart(obj, ops, k);
    } else {
      assert ops[..|ops|] == ops;
      assert ZeroStart(obj, ops, |ops|) && ZeroFrom(obj, ops, |ops|);
    }
  }

  lemma ZeroFromLonger(obj: ObjId, ops: seq<StatOp>, k: nat)
    requires ops != [] && ZeroFrom(obj, ops[..|ops| - 1], k) && AtZero(RunRow(None, obj, ops))
    ensures ZeroFrom(obj, ops, k)
  {
    hide RunRow;
    var front := ops[..|ops| - 1];
    forall j | k <= j <= |ops| ensures AtZero(RunRow(None, obj, ops[..j])) {
      if j == |ops| {
        assert ops[..j] == ops;
      } else {
        assert ops[..j] == front[..j];
      }
    }
  }

  // There is one such step only.
  lemma ZeroStartUnique(obj: ObjId, ops: seq<StatOp>, j: nat, k: nat)
    requires ZeroStart(obj, ops, j) && ZeroFrom(obj, ops, j) && ZeroStart(obj, ops, k) && ZeroFrom(obj, ops, k)
    ensures j == k
  {
    hide RunRow;
  }

  // Exactly those objects may be listed for ts that are at zero and came there at ts or before.
  lemma ListableSince(stats: Stats, obj: ObjId, ops: seq<StatOp>, ts: nat)
    requires RowOf(stats, obj) == RunRow(None, obj, ops)
    ensures Listable(stats, obj, ts) <==> exists k: nat :: ZeroStart(obj, ops, k) && ZeroFrom(obj, ops, k) && ops[k - 1].now <= ts
  {
    assert ops[..|ops|] == ops;
    if AtZero(RunRow(None, obj, ops)) {
      ZeroContinuously(obj, ops);
      ZeroMarkedAlways(None, obj, ops);
    }
    hide RunRow;
  }

  // An object that may be listed for ts has been at zero since a step at or before ts: no operation after ts
  // found it otherwise.
  lemma ListedSinceBefore(obj: ObjId, ops: seq<StatOp>, ts: nat)
    requires Clocked(ops) && AtZero(RunRow(None, obj, ops))
    requires RunRow(None, obj, ops).value.zeroSince.Some? && RunRow(None, obj, ops).value.zeroSince.value <= ts
    ensures exists k: nat :: ZeroFrom(obj, ops, k) && forall j :: 0 <= j < |ops| && ops[j].now > ts ==> k <= j
  {
    ZeroContinuously(obj, ops);
    var k: nat :| ZeroStart(obj, ops, k) && ZeroFrom(obj, ops, k);
    hide RunRow, ZeroFrom;
    forall j | 0 <= j < |ops| && ops[j].now > ts ensures k <= j {
      var i := Min(j, k - 1);
      assert ops[i].now <= ops[k - 1].now;
    }
  }
}
