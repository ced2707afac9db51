// The edges a transaction reports to the path cache are enough: outside them the tree is as it was.
module TouchedEdges {
  import opened Bytes
  import opened FsTypes
  import opened Resolver
  import opened NamespaceState
  import opened Move
  import opened CacheState
  import opened CacheCoherence

  // A state change of a directory inode is the one kind of write a cached base lookup does not survive.
  ghost predicate KeepsDirs(db: Db, op: NsOp) {
    op.StateOp? && op.id in db.nodes && db.nodes[op.id].Kind() == Dir ==>
      db.nodes[op.id].(state := op.state).Kind() == Dir
  }

  ghost predicate KeepsDirsAll(db: Db, ops: seq<NsOp>) {
    ops == [] ||
    (KeepsDirsAll(db, ops[..|ops| - 1]) && KeepsDirs(RunOps(db, ops[..|ops| - 1]), ops[|ops| - 1]))
  }

  // touched_edges: an operation that changed a row adds its edge.
  function Touched(db: Db, ops: seq<NsOp>): set<Edge> {
    if ops == [] then {}
    else
      var before, op := RunOps(db, ops[..|ops| - 1]), ops[|ops| - 1];
      Touched(db, ops[..|ops| - 1]) + (if Check(before, op).None? && Changes(before, op) then {EdgeOf(op)} else {})
  }

  lemma DiffersTwice(a: Db, b: Db, c: Db, e: set<Edge>, f: set<Edge>)
    requires DiffersIn(a, b, e) && DiffersIn(b, c, f)
    ensures DiffersIn(a, c, e + f)
  {
  }

  // The touched edge is all that differs, exactly if no directory becomes something else.
  lemma OpDiffersIn(db: Db, op: NsOp)
    ensures DiffersIn(db, After(db, op), if Check(db, op).None? && Changes(db, op) then {EdgeOf(op)} else {}) <==> KeepsDirs(db, op)
  {
    if Check(db, op).None? && Changes(db, op) {
      EffectDiffersIn(db, EdgeOf(op), NewRow(db, op));
      hide Check;
    } else if !KeepsDirs(db, op) {
      assert After(db, op).nodes[op.id].Kind() != Dir;
    }
  }

  lemma EffectDiffersIn(db: Db, e: Edge, now: Option<Dentry>)
    ensures DiffersIn(db, Effect(db, e, now), {e})
  {
  }

  // After any run, invalidating the touched edges is invalidating every edge that differs.
  lemma {:induction false} RunDiffersIn(db: Db, ops: seq<NsOp>)
    requires KeepsDirsAll(db, ops)
    ensures DiffersIn(db, RunOps(db, ops), Touched(db, ops))
    decreases |ops|
  {
    if ops != [] {
      var front, op := ops[..|ops| - 1], ops[|ops| - 1];
      var before := RunOps(db, front);
      RunDiffersIn(db, front);
      OpDiffersIn(before, op);
      hide DiffersIn, After, Check, Changes, KeepsDirs;
      var last: set<Edge> := if Check(before, op).None? && Changes(before, op) then {EdgeOf(op)} else {};
      DiffersTwice(db, before, After(before, op), Touched(db, front), last);
    }
  }

  // A root directory over an object that holds the file f.
  const BASE := ObjId(DirObj, "d")
  const FILE := ObjId(FileObj, "f")
  const OVERLAY := Db(map[1 := NodeRecord(None, false, Some(BASE), DirOverlay, Some(0))], map[], 0)
  const BECOMES_FILE := StateOp(1, FileNormal)

  // Making it a file is accepted and touches no edge, so what a cache holds of f stays; but f is gone.
  lemma StateChangeUnseen()
    ensures var objects: DirObjects := map[(BASE, "f") := FILE];
      var after := After(OVERLAY, BECOMES_FILE);
      Check(OVERLAY, BECOMES_FILE).None? && Touched(OVERLAY, [BECOMES_FILE]) == {} &&
      EndsIn(OVERLAY, objects, ["f"], TermObj(FILE)) && !EndsIn(after, objects, ["f"], TermObj(FILE)) &&
      Resolve(OVERLAY, objects, ["f"], 0) == Resolved(ObjItem(FILE), []) && Resolve(after, objects, ["f"], 0) == Nothing
  {
    assert [BECOMES_FILE][..0] == [] && ["f"][..0] == [] && ["f"][1..] == [];
    assert RunOps(OVERLAY, []) == OVERLAY;
    assert Chain(OVERLAY, []) == Some([ROOT]);
  }

  // A move touches its source, and its destination unless the target is there already.
  function MoveTouched(db: Db, plan: MovePlan): seq<Edge> {
    if AlreadyThere(db, plan) then [Src(plan)] else [Src(plan), Dst(plan)]
  }

  lemma MoveDiffersIn(db: Db, plan: MovePlan)
    requires Movable(db, plan)
    ensures DiffersIn(db, Moved(db, plan), set e | e in MoveTouched(db, plan))
  {
    hide Applies, BackPointers;
    MoveEffect(db, plan);
    var db2 := Moved(db, plan);
    hide Movable, Moved;
    MovedDiffersIn(db, db2, plan);
  }

  lemma MovedDiffersIn(db: Db, db2: Db, plan: MovePlan)
    requires Src(plan) in db.dentries
    requires db2.dentries == db.dentries[Src(plan) := TombstoneRow(db, plan).value][Dst(plan) := DstRow(db, plan)]
    requires db2.nodes == map x | x in db.nodes :: MovedNode(db, plan, x)
    ensures DiffersIn(db, db2, set e | e in MoveTouched(db, plan))
  {
    assert Src(plan) in MoveTouched(db, plan);
    assert Dst(plan) in MoveTouched(db, plan) || AlreadyThere(db, plan);
    hide RowsChanged;
  }
}
