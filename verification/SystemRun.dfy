// The namespace, client moves and the cached resolver together: a run of the whole metadata service.
module SystemRun {
  import opened Bytes
  import opened FsTypes
  import opened Resolver
  import opened NamespaceState
  import opened Namespace
  import opened MoveTree
  import opened TouchedEdges
  import opened ClientMove
  import opened EnsureDir
  import opened CacheState
  import opened CacheCoherence
  import opened PathCache
  import opened CachedResolve

  datatype SystemStep =
    | Operate(op: NsOp)
    | MoveTo(oldPath: Path, newPath: Path)
    | Look(path: Path, budget: nat)

  // No dentry is made to point at the root, new inodes are referred to by none, and paths are plain.
  ghost predicate Proper(step: SystemStep) {
    match step
    case Operate(CreateOp(_, _, target, _)) => target != Inode(ROOT)
    case Operate(ReplaceOp(_, _, _, target, _)) => target != Inode(ROOT)
    case Operate(AllocOp(_, node)) => node.refBy.None?
    case Operate(_) => true
    case MoveTo(oldPath, newPath) => PlainPath(oldPath) && PlainPath(newPath)
    case Look(_, _) => true
  }

  // What a step does to the tables.
  ghost predicate StepTo(db: Db, step: SystemStep, db2: Db, objects: DirObjects) {
    match step
    case Operate(op) => db2 == After(db, op)
    case MoveTo(oldPath, newPath) => MovedTo(db, db2, objects, oldPath, newPath)
    case Look(_, _) => db2 == db
  }

  ghost predicate MovedTo(db: Db, db2: Db, objects: DirObjects, oldPath: Path, newPath: Path) {
    exists before, plan ::
      Grows(db, before) && SameView(db, before, objects) && ClientMoved(db, before, db2, oldPath, newPath, plan)
  }

  // A step does not turn a directory into something else.
  ghost predicate DirsStay(db: Db, step: SystemStep) {
    step.Operate? ==> KeepsDirs(db, step.op)
  }

  lemma OpKeepsRooted(db: Db, op: NsOp)
    requires Rooted(db) && Proper(Operate(op))
    ensures Rooted(After(db, op))
  {
    AfterKeepsBackPointers(db, op);
    hide BackPointers;
    RootStays(db, op);
  }

  lemma RootStays(db: Db, op: NsOp)
    requires ROOT in db.nodes && db.nodes[ROOT].refBy.None? && Proper(Operate(op))
    ensures ROOT in After(db, op).nodes && After(db, op).nodes[ROOT].refBy.None?
  {
  }

  // An operation points no dentry at a directory at or above its own.
  ghost predicate LoopsNothing(db: Db, step: SystemStep) {
    step.Operate? ==> ClosesNoCycle(db, step.op)
  }

  // A proper operation keeps a tree exactly then.
  lemma OpKeepsTree(db: Db, op: NsOp)
    requires Tree(db) && Proper(Operate(op))
    ensures Tree(After(db, op)) <==> ClosesNoCycle(db, op)
  {
    OpKeepsRooted(db, op);
    hide After, Rooted, Acyclic, ClosesNoCycle;
    OpKeepsAcyclic(db, op);
  }

  method RunOp(tables: Tables, op: NsOp) returns (touched: seq<Edge>)
    modifies tables
    ensures tables.S() == After(old(tables.S()), op)
    ensures touched == if Check(old(tables.S()), op).None? && Changes(old(tables.S()), op) then [EdgeOf(op)] else []
  {
    hide After, Check, Changes;
    var changed := false;
    match op {
      case CreateOp(parent, name, target, rev) =>
        var r := tables.CreateDentry(parent, name, target, rev);
        changed := r == Ok(true);
      case DeleteOp(parent, name, rev) =>
        var r := tables.DeleteDentry(parent, name, rev);
        changed := r == Ok(true);
      case ReplaceOp(parent, name, expectedOld, target, rev) =>
        var r := tables.ReplaceTarget(parent, name, expectedOld, target, rev);
        changed := r == Ok(true);
      case BumpOp(dir, rev) =>
        var _ := tables.BumpDirRev(dir, rev);
        NoRowChanges(old(tables.S()), op);
      case AllocOp(requested, node) =>
        var _ := tables.AllocInode(requested, node);
        NoRowChanges(old(tables.S()), op);
      case StateOp(id, state) =>
        var _ := tables.SetState(id, state);
        NoRowChanges(old(tables.S()), op);
    }
    return if changed then [EdgeOf(op)] else [];
  }

  lemma NoRowChanges(db: Db, op: NsOp)
    requires op.BumpOp? || op.AllocOp? || op.StateOp?
    ensures !Changes(db, op)
  {
  }

  lemma OpTouches(db: Db, op: NsOp, touched: seq<Edge>)
    requires touched == if Check(db, op).None? && Changes(db, op) then [EdgeOf(op)] else []
    requires KeepsDirs(db, op)
    ensures DiffersIn(db, After(db, op), set e | e in touched)
  {
    hide After, Check, Changes, DiffersIn, KeepsDirs;
    OpDiffersIn(db, op);
    assert (set e | e in touched) == if Check(db, op).None? && Changes(db, op) then {EdgeOf(op)} else {};
  }

  // One step of the service: a change invalidates the edges it touched when it commits.
  method RunStep(tables: Tables, cache: PathResolveCache, objects: DirObjects, step: SystemStep)
    returns (answer: Option<Answer>)
    requires cache.Valid() && Rooted(tables.S()) && Proper(step)
    modifies tables, cache
    ensures cache.Valid() && Rooted(tables.S()) && StepTo(old(tables.S()), step, tables.S(), objects)
    ensures old(cache.orphaned) ==> cache.orphaned
    ensures old(Agrees(cache.S(), cache.orphaned, tables.S(), objects)) && DirsStay(old(tables.S()), step) && !cache.orphaned ==>
      Agrees(cache.S(), cache.orphaned, tables.S(), objects)
    ensures answer.Some? <==> step.Look?
    ensures step.Look? && old(Agrees(cache.S(), cache.orphaned, tables.S(), objects)) ==>
      answer == Some(Resolve(old(tables.S()), objects, step.path, step.budget))
    ensures Tree(old(tables.S())) ==> (Tree(tables.S()) <==> LoopsNothing(old(tables.S()), step))
  {
    hide Agrees, WellFormed, After, Check, Changes, KeepsDirs, DiffersIn, Rooted, Tree, Resolve, PlainPath, Grows, SameView,
         ClientMoved, UniqueParents, OneRound, WalkFrom, RightAnswer;
    ghost var db := tables.S();
    match step {
      case Operate(op) =>
        OpKeepsRooted(db, op);
        if Tree(db) { OpKeepsTree(db, op); }
        var touched := RunOp(tables, op);
        if KeepsDirs(db, op) { OpTouches(db, op, touched); }
        Commit(cache, db, tables.S(), objects, touched);
        answer := None;
      case MoveTo(oldPath, newPath) =>
        var _, touched, before, plan := MovePath(tables, objects, oldPath, newPath);
        assert MovedTo(db, tables.S(), objects, oldPath, newPath);
        Commit(cache, db, tables.S(), objects, touched);
        answer := None;
      case Look(path, budget) =>
        RootedHasUniqueParents(db);
        var found, _ := ResolvePath(cache, tables.S(), objects, path, budget);
        answer := Some(found);
    }
  }

  // The answers without a cache, on the tables as they were at each step.
  ghost function Cacheless(trace: seq<Db>, steps: seq<SystemStep>, objects: DirObjects): seq<Answer>
    requires |steps| < |trace|
  {
    if steps == [] then []
    else
      var n := |steps| - 1;
      Cacheless(trace, steps[..n], objects) +
      if steps[n].Look? then [Resolve(trace[n], objects, steps[n].path, steps[n].budget)] else []
  }

  ghost predicate Traces(trace: seq<Db>, steps: seq<SystemStep>, objects: DirObjects) {
    |trace| == |steps| + 1 &&
    (forall k :: 0 <= k < |trace| ==> Rooted(trace[k])) &&
    forall k :: 0 <= k < |steps| ==> StepTo(trace[k], steps[k], trace[k + 1], objects)
  }

  ghost predicate DirsStayOn(trace: seq<Db>, steps: seq<SystemStep>)
    requires |steps| < |trace|
  {
    forall k :: 0 <= k < |steps| ==> DirsStay(trace[k], steps[k])
  }

  ghost predicate AllTrees(trace: seq<Db>) {
    forall k :: 0 <= k < |trace| ==> Tree(trace[k])
  }

  ghost predicate LoopsNowhere(trace: seq<Db>, steps: seq<SystemStep>)
    requires |steps| < |trace|
  {
    forall k :: 0 <= k < |steps| ==> LoopsNothing(trace[k], steps[k])
  }

  lemma TreesPush(trace: seq<Db>, steps: seq<SystemStep>, step: SystemStep, db: Db)
    requires |trace| == |steps| + 1 && (AllTrees(trace) <==> LoopsNowhere(trace, steps))
    requires Tree(trace[|steps|]) ==> (Tree(db) <==> LoopsNothing(trace[|steps|], step))
    ensures AllTrees(trace + [db]) <==> LoopsNowhere(trace + [db], steps + [step])
  {
    hide Tree, LoopsNothing;
    var trace2, steps2 := trace + [db], steps + [step];
    assert forall k :: 0 <= k < |trace| ==> trace2[k] == trace[k];
    assert forall k :: 0 <= k < |steps| ==> steps2[k] == steps[k];
    assert trace2[|trace|] == db && steps2[|steps|] == step;
    assert AllTrees(trace2) <==> AllTrees(trace) && Tree(db);
    assert LoopsNowhere(trace2, steps2) <==> LoopsNowhere(trace, steps) && LoopsNothing(trace[|steps|], step);
  }

  lemma {:induction false} CachelessPrefix(trace: seq<Db>, more: seq<Db>, steps: seq<SystemStep>, objects: DirObjects)
    requires |steps| < |trace|
    ensures Cacheless(trace + more, steps, objects) == Cacheless(trace, steps, objects)
  {
    if steps != [] { CachelessPrefix(trace, more, steps[..|steps| - 1], objects); }
  }

  lemma TracesPush(trace: seq<Db>, steps: seq<SystemStep>, objects: DirObjects, step: SystemStep, db: Db)
    requires Traces(trace, steps, objects) && StepTo(trace[|steps|], step, db, objects) && Rooted(db)
    ensures Traces(trace + [db], steps + [step], objects)
    ensures DirsStayOn(trace + [db], steps + [step]) <==> DirsStayOn(trace, steps) && DirsStay(trace[|steps|], step)
    ensures Cacheless(trace + [db], steps + [step], objects) == Cacheless(trace, steps, objects) +
      if step.Look? then [Resolve(trace[|steps|], objects, step.path, step.budget)] else []
  {
    hide Rooted, StepTo, DirsStay, Resolve;
    assert (steps + [step])[..|steps|] == steps;
    CachelessPrefix(trace, [db], steps, objects);
    PushStays(trace, steps, step, db);
  }

  lemma PushStays(trace: seq<Db>, steps: seq<SystemStep>, step: SystemStep, db: Db)
    requires |trace| == |steps| + 1
    ensures DirsStayOn(trace + [db], steps + [step]) <==> DirsStayOn(trace, steps) && DirsStay(trace[|steps|], step)
  {
    hide DirsStay;
    var trace2, steps2 := trace + [db], steps + [step];
    assert forall k :: 0 <= k < |steps| ==> steps2[k] == steps[k] && trace2[k] == trace[k];
    assert steps2[|steps|] == step && trace2[|steps|] == trace[|steps|];
  }

  // Any run of namespace operations, client moves and cached resolves, from tables with right back-pointers
  // and an unreferred root: both stay so, the edges each transaction touched are all that differ, and unless
  // an eviction orphaned an index row every answer is that of the cacheless walk at its step.  From a tree, all
  // states are trees exactly if no bare operation points a dentry at a directory at or above its own.
  method Run(tables: Tables, cache: PathResolveCache, objects: DirObjects, steps: seq<SystemStep>)
    returns (answers: seq<Answer>, ghost trace: seq<Db>)
    requires Rooted(tables.S()) && cache.Valid() && cache.S() == Empty(0) && !cache.orphaned
    requires forall k :: 0 <= k < |steps| ==> Proper(steps[k])
    modifies tables, cache
    ensures Traces(trace, steps, objects) && trace[0] == old(tables.S()) && trace[|steps|] == tables.S()
    ensures DirsStayOn(trace, steps) && !cache.orphaned ==> answers == Cacheless(trace, steps, objects)
    ensures Tree(old(tables.S())) ==> (AllTrees(trace) <==> LoopsNowhere(trace, steps))
  {
    hide Agrees, WellFormed, Rooted, Tree, StepTo, DirsStay, Resolve, Proper, LoopsNothing;
    EmptyAgrees(0, tables.S(), objects);
    answers, trace := [], [tables.S()];
    for k := 0 to |steps|
      invariant cache.Valid() && Traces(trace, steps[..k], objects)
      invariant trace[0] == old(tables.S()) && trace[k] == tables.S()
      invariant DirsStayOn(trace, steps[..k]) && !cache.orphaned ==>
        Agrees(cache.S(), cache.orphaned, tables.S(), objects) && answers == Cacheless(trace, steps[..k], objects)
      invariant Tree(old(tables.S())) ==> (AllTrees(trace) <==> LoopsNowhere(trace, steps[..k]))
    {
      var answer := RunStep(tables, cache, objects, steps[k]);
      TracesPush(trace, steps[..k], objects, steps[k], tables.S());
      if Tree(old(tables.S())) { TreesPush(trace, steps[..k], steps[k], tables.S()); }
      assert steps[..k + 1] == steps[..k] + [steps[k]];
      trace := trace + [tables.S()];
      answers := answers + if answer.Some? then [answer.value] else [];
    }
    assert steps[..|steps|] == steps;
  }
}
