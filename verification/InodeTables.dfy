// The daemon's table of inode numbers and paths: two hash maps that should be inverse to each other,
// and what recursive removal and recursive rename do to them.
module InodeTables {
  import opened Bytes
  import opened FsTypes
  import opened Resolver
  import opened MoveTree

  type Paths = map<string, nat>
  type Inodes = map<nat, string>

  // path is dir or below it, by the textual prefix the table compares with.
  predicate Under(path: string, dir: string) {
    path == dir || dir + "/" <= path
  }

  // The two maps are inverse to each other.
  ghost predicate Inverse(inodes: Inodes, paths: Paths) {
    (forall i :: i in inodes ==> inodes[i] in paths && paths[inodes[i]] == i) &&
    (forall p :: p in paths ==> paths[p] in inodes && inodes[paths[p]] == p)
  }

  ghost predicate Below(inodes: Inodes, next: nat) {
    forall i :: i in inodes ==> i < next
  }

  // A path moved along with its directory, and back.
  function Sub(path: string, oldPath: string, newPath: string): string
    requires Under(path, oldPath)
  {
    newPath + path[|oldPath|..]
  }

  lemma SubUnder(path: string, oldPath: string, newPath: string)
    requires Under(path, oldPath)
    ensures Under(Sub(path, oldPath, newPath), newPath)
    ensures Sub(Sub(path, oldPath, newPath), newPath, oldPath) == path
  {
    assert path == oldPath + path[|oldPath|..];
    if path != oldPath {
      assert path[|oldPath|..][0] == '/';
      assert path[|oldPath|..] == "/" + path[|oldPath|..][1..];
      assert Sub(path, oldPath, newPath) == (newPath + "/") + path[|oldPath|..][1..];
    }
  }

  // Directories of one path are one inside the other, by their length.
  lemma UnderBoth(path: string, a: string, b: string)
    requires Under(path, a) && Under(path, b)
    ensures |a| == |b| ==> a == b
    ensures |a| < |b| ==> Under(b, a)
  {
    assert a == path[..|a|] && b == path[..|b|];
    if |a| < |b| {
      assert (a + "/") == path[..|a| + 1];
    }
  }

  // ---- paths by their names ----

  // For the texts of paths, being at or below a path is having its names first, so /ab is not below /a.  Below the
  // root the table finds only the root, whose text ends in a slash.
  lemma UnderIsPrefix(path: Path, dir: Path)
    requires PlainPath(path) && PlainPath(dir)
    ensures Under(Text(path), Text(dir)) <==> if dir == [] then path == [] else dir <= path
  {
    AtOrBelow(Text(path), Text(dir));
    if path != [] { JoinStarts(path); }
    if dir != [] { JoinStarts(dir); }
    if path != [] && dir != [] {
      SamePathText(path, dir);
      hide Join, PlainPath;
    }
  }

  lemma AtOrBelow(p: string, a: string)
    ensures Under(p, a) <==> p == a || (a <= p && |p| > |a| && p[|a|] == '/')
  {
    if a <= p && |p| > |a| && p[|a|] == '/' { assert p[..|a| + 1] == a + "/"; }
  }

  // The text of a path starts with a slash and a name.
  lemma {:induction false} JoinStarts(path: Path)
    requires PlainPath(path) && path != []
    ensures |Join(path)| > 1 && Join(path)[0] == '/' && Join(path)[1] != '/'
    decreases |path|
  {
    assert Plain(path[0]);
    if |path| > 1 {
      JoinStarts(path[..|path| - 1]);
    } else {
      assert path[..0] == [];
      assert Join(path) == "/" + path[0];
    }
  }

  // Comparing texts is comparing names.
  lemma SamePathText(p: Path, a: Path)
    requires PlainPath(p) && PlainPath(a) && a != []
    ensures Join(p) == Join(a) <==> p == a
    ensures Join(a) <= Join(p) && |Join(p)| > |Join(a)| && Join(p)[|Join(a)|] == '/' <==> a <= p && a != p
  {
    SplitJoin(p);
    SplitJoin(a);
    assert p == ([""] + p)[1..] && a == ([""] + a)[1..];
    hide SplitSlash, Join, PlainPath;
    TrimText(p);
    TrimText(a);
    DescendantIsPrefix(p, a);
  }

  // A path below a moved directory moves to the same names below the new one.
  lemma SubIsSubstitution(below: Path, oldDir: Path, newDir: Path)
    requires PlainPath(below) && PlainPath(oldDir) && PlainPath(newDir) && oldDir != [] && newDir != []
    ensures Under(Text(oldDir + below), Text(oldDir))
    ensures Sub(Text(oldDir + below), Text(oldDir), Text(newDir)) == Text(newDir + below)
  {
    UnderIsPrefix(oldDir + below, oldDir);
    JoinAppend(oldDir, below);
    JoinAppend(newDir, below);
    hide Join, PlainPath;
  }

  // ---- rename ----

  // Which paths the table holds when those in done have moved and what was below the new path is gone.
  // When the new path is the longer one, a moved path that comes later takes away one that moved onto it.
  predicate Holds(paths0: Paths, done: set<string>, oldPath: string, newPath: string, p: string) {
    if Under(p, newPath) then Sub(p, newPath, oldPath) in done && !(|newPath| > |oldPath| && p in done)
    else p in paths0 && p !in done
  }

  ghost predicate MidPaths(paths0: Paths, paths: Paths, done: set<string>, oldPath: string, newPath: string) {
    (forall p :: p in paths <==> Holds(paths0, done, oldPath, newPath, p)) &&
    (forall p :: p in paths ==> Origin(p, oldPath, newPath) in paths0 && paths[p] == paths0[Origin(p, oldPath, newPath)])
  }

  // Where a path in the renamed table comes from.
  function Origin(path: string, oldPath: string, newPath: string): string {
    if Under(path, newPath) then Sub(path, newPath, oldPath) else path
  }

  ghost predicate MidInodes(inodes0: Inodes, inodes: Inodes, done: set<string>, oldPath: string, newPath: string) {
    (forall p :: p in done ==> Under(p, oldPath)) &&
    (forall i :: i in inodes <==> i in inodes0 && (inodes0[i] in done || !Under(inodes0[i], newPath))) &&
    (forall i :: i in inodes ==> inodes[i] == if inodes0[i] in done then Sub(inodes0[i], oldPath, newPath) else inodes0[i])
  }

  // The next path to move is as long as any that has moved, and as short as any that has not.
  ghost predicate NextIs(moved: set<string>, done: set<string>, q: string) {
    done <= moved && q in moved - done &&
    (forall p :: p in done ==> |p| <= |q|) && forall p :: p in moved && p !in done ==> |q| <= |p|
  }

  ghost predicate Moving(paths0: Paths, moved: set<string>, oldPath: string) {
    forall p :: p in moved <==> p in paths0 && Under(p, oldPath)
  }

  lemma LengthOfSub(path: string, oldPath: string, newPath: string)
    requires Under(path, oldPath)
    ensures |Sub(path, oldPath, newPath)| == |path| - |oldPath| + |newPath|
  {
  }

  // Which paths move onto which.
  lemma SubIs(p: string, q: string, oldPath: string, newPath: string)
    requires Under(p, newPath) && Under(q, oldPath)
    ensures Sub(p, newPath, oldPath) == q <==> p == Sub(q, oldPath, newPath)
  {
    SubUnder(p, newPath, oldPath);
    SubUnder(q, oldPath, newPath);
  }

  // One path moves: it goes away from where it was, then appears where it belongs.
  lemma HoldsStep(paths0: Paths, moved: set<string>, done: set<string>, q: string, oldPath: string, newPath: string, p: string)
    requires Moving(paths0, moved, oldPath) && NextIs(moved, done, q) && Under(q, oldPath)
    ensures Holds(paths0, done + {q}, oldPath, newPath, p) <==>
      p == Sub(q, oldPath, newPath) || (p != q && Holds(paths0, done, oldPath, newPath, p))
  {
    SubUnder(q, oldPath, newPath);
    LengthOfSub(q, oldPath, newPath);
    if Under(p, newPath) {
      SubIs(p, q, oldPath, newPath);
      LengthOfSub(p, newPath, oldPath);
      if p == q { UnderBoth(q, oldPath, newPath); }
    }
    hide Under, Sub;
  }

  lemma RenameStepPaths(paths0: Paths, paths: Paths, moved: set<string>, done: set<string>, q: string,
                        oldPath: string, newPath: string)
    requires MidPaths(paths0, paths, done, oldPath, newPath) && Moving(paths0, moved, oldPath) && NextIs(moved, done, q)
    requires Under(q, oldPath)
    ensures MidPaths(paths0, (paths - {q})[Sub(q, oldPath, newPath) := paths0[q]], done + {q}, oldPath, newPath)
  {
    SubUnder(q, oldPath, newPath);
    hide Under, Sub, Holds, Origin, Moving, NextIs;
    StepOrigins(paths0, paths, done, q, oldPath, newPath);
    forall p ensures Holds(paths0, done + {q}, oldPath, newPath, p) <==>
      p == Sub(q, oldPath, newPath) || (p != q && Holds(paths0, done, oldPath, newPath, p))
    {
      HoldsStep(paths0, moved, done, q, oldPath, newPath, p);
    }
  }

  lemma StepOrigins(paths0: Paths, paths: Paths, done: set<string>, q: string, oldPath: string, newPath: string)
    requires MidPaths(paths0, paths, done, oldPath, newPath) && q in paths0 && Under(q, oldPath)
    ensures var after := (paths - {q})[Sub(q, oldPath, newPath) := paths0[q]];
      forall p :: p in after ==> Origin(p, oldPath, newPath) in paths0 && after[p] == paths0[Origin(p, oldPath, newPath)]
  {
    SubUnder(q, oldPath, newPath);
    hide Holds, Under, Sub;
  }

  lemma RenameStepInodes(paths0: Paths, inodes0: Inodes, inodes: Inodes, done: set<string>, q: string,
                         oldPath: string, newPath: string)
    requires Inverse(inodes0, paths0) && MidInodes(inodes0, inodes, done, oldPath, newPath)
    requires q in paths0 && Under(q, oldPath)
    ensures MidInodes(inodes0, inodes[paths0[q] := Sub(q, oldPath, newPath)], done + {q}, oldPath, newPath)
  {
    hide Under, Sub;
  }

  // Some path below the old one moves onto another: only possible when the new path is inside the old.
  predicate Clash(paths: Paths, oldPath: string, newPath: string) {
    |newPath| > |oldPath| && Under(newPath, oldPath) &&
    exists p :: p in paths && Under(p, newPath) && Sub(p, newPath, oldPath) in paths
  }

  lemma UnderTransitive(p: string, a: string, b: string)
    requires Under(p, a) && Under(a, b)
    ensures Under(p, b)
  {
    if p != a && a != b {
      assert b + "/" == a[..|b| + 1] && a == p[..|a|];
    }
  }

  // Renaming is prefix substitution: below the new path is what was below the old one, the rest is what
  // was below neither.  A path that another one moves onto is lost when the new path is the longer one.
  ghost predicate Renamed(paths0: Paths, paths: Paths, oldPath: string, newPath: string) {
    (forall p :: p in paths <==>
      (if Under(p, newPath)
       then Sub(p, newPath, oldPath) in paths0 && !(|newPath| > |oldPath| && p in paths0 && Under(p, oldPath))
       else p in paths0 && !Under(p, oldPath))) &&
    (forall p :: p in paths ==> Origin(p, oldPath, newPath) in paths0 && paths[p] == paths0[Origin(p, oldPath, newPath)])
  }

  lemma AllMoved(paths0: Paths, paths: Paths, moved: set<string>, oldPath: string, newPath: string)
    requires Moving(paths0, moved, oldPath) && MidPaths(paths0, paths, moved, oldPath, newPath)
    ensures Renamed(paths0, paths, oldPath, newPath)
  {
    forall p ensures Holds(paths0, moved, oldPath, newPath, p) <==>
      (if Under(p, newPath)
       then Sub(p, newPath, oldPath) in paths0 && !(|newPath| > |oldPath| && p in paths0 && Under(p, oldPath))
       else p in paths0 && !Under(p, oldPath))
    {
      if Under(p, newPath) {
        SubUnder(p, newPath, oldPath);
      }
    }
    hide Under, Sub, Holds;
  }

  // A path moves onto another that moves as well.
  lemma ClashIs(paths0: Paths, p: string, oldPath: string, newPath: string)
    requires p in paths0 && Under(p, newPath) && Sub(p, newPath, oldPath) in paths0
    ensures Clash(paths0, oldPath, newPath) <== |newPath| > |oldPath| && Under(p, oldPath)
  {
    if |newPath| > |oldPath| && Under(p, oldPath) { UnderBoth(p, oldPath, newPath); }
  }

  // Every path of the renamed tables leads to an inode that leads back to it.
  lemma RenamedForth(inodes0: Inodes, paths0: Paths, inodes: Inodes, paths: Paths, moved: set<string>,
                     oldPath: string, newPath: string, p: string)
    requires Inverse(inodes0, paths0) && Moving(paths0, moved, oldPath) && p in paths
    requires MidPaths(paths0, paths, moved, oldPath, newPath) && MidInodes(inodes0, inodes, moved, oldPath, newPath)
    ensures paths[p] in inodes && inodes[paths[p]] == p
  {
    assert Holds(paths0, moved, oldPath, newPath, p);
    if Under(p, newPath) { SubUnder(p, newPath, oldPath); }
    hide Under, Sub;
  }

  // Every inode of the renamed tables leads to a path that leads back, unless a path moved onto it.
  lemma RenamedBack(inodes0: Inodes, paths0: Paths, inodes: Inodes, paths: Paths, moved: set<string>,
                    oldPath: string, newPath: string, i: nat)
    requires Inverse(inodes0, paths0) && Moving(paths0, moved, oldPath) && i in inodes
    requires MidPaths(paths0, paths, moved, oldPath, newPath) && MidInodes(inodes0, inodes, moved, oldPath, newPath)
    requires !Clash(paths0, oldPath, newPath)
    ensures inodes[i] in paths && paths[inodes[i]] == i
  {
    var p0 := inodes0[i];
    if p0 in moved {
      SubUnder(p0, oldPath, newPath);
      var p := Sub(p0, oldPath, newPath);
      if p in paths0 { ClashIs(paths0, p, oldPath, newPath); }
      assert Holds(paths0, moved, oldPath, newPath, p);
    } else {
      assert Holds(paths0, moved, oldPath, newPath, p0);
    }
  }

  lemma ClashBreaks(inodes0: Inodes, paths0: Paths, inodes: Inodes, paths: Paths, moved: set<string>,
                    oldPath: string, newPath: string)
    requires Inverse(inodes0, paths0) && Moving(paths0, moved, oldPath)
    requires MidPaths(paths0, paths, moved, oldPath, newPath) && MidInodes(inodes0, inodes, moved, oldPath, newPath)
    requires Clash(paths0, oldPath, newPath)
    ensures !Inverse(inodes, paths)
  {
    var p :| p in paths0 && Under(p, newPath) && Sub(p, newPath, oldPath) in paths0;
    SubUnder(p, newPath, oldPath);
    UnderTransitive(p, newPath, oldPath);
    var i := paths0[Sub(p, newPath, oldPath)];
    assert i in inodes && inodes[i] == p;
    assert !Holds(paths0, moved, oldPath, newPath, p);
  }

  // A rename keeps the two maps inverse to each other exactly if no path moves onto another that moves.
  lemma RenamedInverse(inodes0: Inodes, paths0: Paths, inodes: Inodes, paths: Paths, moved: set<string>,
                       oldPath: string, newPath: string)
    requires Inverse(inodes0, paths0) && Moving(paths0, moved, oldPath)
    requires MidPaths(paths0, paths, moved, oldPath, newPath) && MidInodes(inodes0, inodes, moved, oldPath, newPath)
    ensures Inverse(inodes, paths) <==> !Clash(paths0, oldPath, newPath)
  {
    if Clash(paths0, oldPath, newPath) {
      ClashBreaks(inodes0, paths0, inodes, paths, moved, oldPath, newPath);
    } else {
      forall i | i in inodes ensures inodes[i] in paths && paths[inodes[i]] == i {
        RenamedBack(inodes0, paths0, inodes, paths, moved, oldPath, newPath, i);
      }
      forall p | p in paths ensures paths[p] in inodes && inodes[paths[p]] == p {
        RenamedForth(inodes0, paths0, inodes, paths, moved, oldPath, newPath, p);
      }
    }
    hide MidPaths, MidInodes, Moving, Clash;
  }

  // When the new path is not strictly inside the old one, nothing moves onto anything that moves, and every
  // path below the old one keeps its inode under its new name.
  lemma RenameIsSubstitution(paths0: Paths, paths: Paths, oldPath: string, newPath: string, p: string)
    requires Renamed(paths0, paths, oldPath, newPath) && (Under(newPath, oldPath) ==> newPath == oldPath)
    ensures !Clash(paths0, oldPath, newPath)
    ensures p in paths0 && Under(p, oldPath) ==>
      Sub(p, oldPath, newPath) in paths && paths[Sub(p, oldPath, newPath)] == paths0[p]
    ensures p in paths0 && !Under(p, oldPath) && !Under(p, newPath) ==> p in paths && paths[p] == paths0[p]
    ensures p in paths ==> Origin(p, oldPath, newPath) in paths0 && paths[p] == paths0[Origin(p, oldPath, newPath)]
  {
    if Under(p, oldPath) {
      var to := Sub(p, oldPath, newPath);
      SubUnder(p, oldPath, newPath);
      if Under(to, oldPath) { UnderBoth(to, oldPath, newPath); }
    }
  }

  // What is at or below dir is gone from both maps, and nothing else.
  ghost predicate Dropped(paths0: Paths, inodes0: Inodes, paths: Paths, inodes: Inodes, dir: string) {
    (forall p :: p in paths <==> p in paths0 && !Under(p, dir)) && (forall p :: p in paths ==> paths[p] == paths0[p]) &&
    (forall i :: i in inodes <==> i in inodes0 && !Under(inodes0[i], dir)) &&
    (forall i :: i in inodes ==> inodes[i] == inodes0[i])
  }

  // The inodes of exactly the paths at or below dir, one each.
  ghost predicate Collected(removed: seq<nat>, paths0: Paths, inodes0: Inodes, dir: string) {
    (forall i :: i in removed <==> i in inodes0 && Under(inodes0[i], dir)) &&
    |removed| == |set p | p in paths0 && Under(p, dir)|
  }

  class InodeTable {
    var nextInode: nat
    var inodeToPath: Inodes
    var pathToInode: Paths

    ghost predicate Valid()
      reads this
    {
      Inverse(inodeToPath, pathToInode) && Below(inodeToPath, nextInode)
    }

    constructor ()
      ensures Valid() && inodeToPath == map[1 := "/"] && pathToInode == map["/" := 1]
    {
      nextInode, inodeToPath, pathToInode := 2_000_000, map[1 := "/"], map["/" := 1];
    }

    method Remember(inode: nat, path: string)
      modifies this`inodeToPath, this`pathToInode
      ensures inodeToPath == old(inodeToPath)[inode := path] && pathToInode == old(pathToInode)[path := inode]
    {
      inodeToPath := inodeToPath[inode := path];
      pathToInode := pathToInode[path := inode];
    }

    // Without a hint a known path keeps its inode and a new one gets a new inode.  A hint overwrites both
    // maps, and keeps them inverse exactly if neither the inode nor the path was known for something else.
    method GetOrCreate(hint: Option<nat>, path: string) returns (inode: nat)
      requires Valid()
      modifies this
      ensures hint.None? ==> Valid() && path in pathToInode && pathToInode[path] == inode
      ensures hint.None? && path in old(pathToInode) ==>
        pathToInode == old(pathToInode) && inodeToPath == old(inodeToPath)
      ensures hint.None? && path !in old(pathToInode) ==>
        inode !in old(inodeToPath) && pathToInode == old(pathToInode)[path := inode]
      ensures hint.Some? ==> inode == hint.value && pathToInode == old(pathToInode)[path := inode]
      ensures hint.Some? ==> inodeToPath == old(inodeToPath)[inode := path]
      ensures hint.Some? ==> (Inverse(inodeToPath, pathToInode) <==>
        (path in old(pathToInode) ==> old(pathToInode)[path] == inode) &&
        (inode in old(inodeToPath) ==> old(inodeToPath)[inode] == path))
    {
      if hint.Some? {
        inode := hint.value;
        Remember(inode, path);
        HintKeepsInverse(old(inodeToPath), old(pathToInode), inode, path);
        return;
      }
      if path in pathToInode { return pathToInode[path]; }
      inode := nextInode;
      nextInode := nextInode + 1;
      Remember(inode, path);
    }

    // remove_path_recursive: the path and what is below it, with their inodes
    method RemovePathRecursive(path: string) returns (removed: seq<nat>)
      requires Valid()
      modifies this`inodeToPath, this`pathToInode
      ensures Valid() && Dropped(old(pathToInode), old(inodeToPath), pathToInode, inodeToPath, path)
      ensures Collected(removed, old(pathToInode), old(inodeToPath), path)
    {
      removed := RemovePaths(path);
    }

    // The loop shared by removal and rename: drops the path and what is below it from both maps.
    method RemovePaths(path: string) returns (removed: seq<nat>)
      requires Inverse(inodeToPath, pathToInode)
      modifies this`inodeToPath, this`pathToInode
      ensures Dropped(old(pathToInode), old(inodeToPath), pathToInode, inodeToPath, path)
      ensures Collected(removed, old(pathToInode), old(inodeToPath), path)
    {
      removed := [];
      var all := set p | p in pathToInode && Under(p, path);
      var left := all;
      while left != {}
        invariant left <= all && |removed| + |left| == |all|
        invariant forall p :: p in pathToInode <==> p in old(pathToInode) && (p in left || !Under(p, path))
        invariant forall p :: p in pathToInode ==> pathToInode[p] == old(pathToInode)[p]
        invariant forall i :: i in inodeToPath <==>
          i in old(inodeToPath) && (old(inodeToPath)[i] in left || !Under(old(inodeToPath)[i], path))
        invariant forall i :: i in inodeToPath ==> inodeToPath[i] == old(inodeToPath)[i]
        invariant forall i :: i in removed <==>
          i in old(inodeToPath) && Under(old(inodeToPath)[i], path) && old(inodeToPath)[i] !in left
        decreases |left|
      {
        hide Under;
        var p :| p in left;
        var inode := pathToInode[p];
        pathToInode := pathToInode - {p};
        inodeToPath := inodeToPath - {inode};
        removed := removed + [inode];
        left := left - {p};
      }
    }

    // rename_path_recursive
    method RenamePathRecursive(oldPath: string, newPath: string)
      requires Valid()
      modifies this`inodeToPath, this`pathToInode
      ensures Below(inodeToPath, nextInode)
      ensures !Known(old(pathToInode), oldPath) ==> pathToInode == old(pathToInode) && inodeToPath == old(inodeToPath)
      ensures Known(old(pathToInode), oldPath) ==> Renamed(old(pathToInode), pathToInode, oldPath, newPath)
      ensures Known(old(pathToInode), oldPath) ==>
        MidInodes(old(inodeToPath), inodeToPath, MovedPaths(old(pathToInode), oldPath), oldPath, newPath)
      ensures Known(old(pathToInode), oldPath) ==> (Valid() <==> !Clash(old(pathToInode), oldPath, newPath))
    {
      hide Under, MidPaths, MidInodes, Holds, Inverse, Renamed, Clash, Moving, Shortest, Known, Below, Dropped, Collected;
      hide MovedPaths;
      ghost var paths0, inodes0 := pathToInode, inodeToPath;
      var inodeOf := pathToInode;
      var moved := MovedPaths(pathToInode, oldPath);
      KnownIsMoved(pathToInode, oldPath);
      if moved == {} { return; }
      var replaced := RemovePaths(newPath);
      var order := ByLength(moved);
      MidStart(paths0, inodes0, pathToInode, inodeToPath, oldPath, newPath);
      MoveInOrder(order, inodeOf, moved, inodes0, oldPath, newPath);
      AllMoved(paths0, pathToInode, moved, oldPath, newPath);
      RenamedInverse(inodes0, paths0, inodeToPath, pathToInode, moved, oldPath, newPath);
      MovedBelow(inodes0, inodeToPath, moved, oldPath, newPath, nextInode);
    }

    // The last loop of rename_path_recursive.
    method MoveInOrder(order: seq<string>, inodeOf: Paths, ghost moved: set<string>, ghost inodes0: Inodes,
                       oldPath: string, newPath: string)
      requires Inverse(inodes0, inodeOf) && Moving(inodeOf, moved, oldPath) && Shortest(order, moved)
      requires MidPaths(inodeOf, pathToInode, {}, oldPath, newPath) && MidInodes(inodes0, inodeToPath, {}, oldPath, newPath)
      modifies this`inodeToPath, this`pathToInode
      ensures MidPaths(inodeOf, pathToInode, moved, oldPath, newPath)
      ensures MidInodes(inodes0, inodeToPath, moved, oldPath, newPath)
    {
      hide Under, Sub, MidPaths, MidInodes, Holds, Inverse, Moving, Shortest, NextIs;
      OrderMembers(order, moved, inodeOf, oldPath);
      OrderEnd(order, moved);
      assert First(order, 0) == {};
      for k := 0 to |order|
        invariant MidPaths(inodeOf, pathToInode, First(order, k), oldPath, newPath)
        invariant MidInodes(inodes0, inodeToPath, First(order, k), oldPath, newPath)
      {
        var path := order[k];
        ghost var done := First(order, k);
        OrderNext(order, moved, k);
        RenameStepPaths(inodeOf, pathToInode, moved, done, path, oldPath, newPath);
        RenameStepInodes(inodeOf, inodes0, inodeToPath, done, path, oldPath, newPath);
        pathToInode := pathToInode - {path};
        var newFullPath := Sub(path, oldPath, newPath);
        pathToInode := pathToInode[newFullPath := inodeOf[path]];
        inodeToPath := inodeToPath[inodeOf[path] := newFullPath];
      }
    }
  }

  // Renaming /a to /a/b, where /a/b is known: /a moves onto /a/b, which then moves on and takes that entry along.
  // The inode of /a is left with a path that leads to no inode.
  method LostEntry() returns (table: InodeTable, a: nat, b: nat)
    ensures a in table.inodeToPath && table.inodeToPath[a] == "/a/b" && "/a/b" !in table.pathToInode
    ensures "/a/b/b" in table.pathToInode && table.pathToInode["/a/b/b"] == b
    ensures !Inverse(table.inodeToPath, table.pathToInode)
  {
    LostNames();
    table := new InodeTable();
    a := table.GetOrCreate(None, "/a");
    b := table.GetOrCreate(None, "/a/b");
    ghost var paths, inodes := table.pathToInode, table.inodeToPath;
    LostFacts(paths, inodes, a, b);
    hide Inverse, Below, Known, Renamed, MidInodes, Clash;
    table.RenamePathRecursive("/a", "/a/b");
    LostAfter(paths, inodes, table.pathToInode, table.inodeToPath, a, b);
  }

  lemma LostFacts(paths: Paths, inodes: Inodes, a: nat, b: nat)
    requires Inverse(inodes, paths) && "/a" in paths && paths["/a"] == a && "/a/b" in paths && paths["/a/b"] == b
    ensures a in inodes && inodes[a] == "/a" && Known(paths, "/a")
  {
    assert Under("/a", "/a");
  }

  lemma LostAfter(paths0: Paths, inodes0: Inodes, paths: Paths, inodes: Inodes, a: nat, b: nat)
    requires "/a" in paths0 && "/a/b" in paths0 && "/a/b/b" !in paths0 && paths0["/a/b"] == b && a in inodes0 && inodes0[a] == "/a"
    requires Renamed(paths0, paths, "/a", "/a/b") && MidInodes(inodes0, inodes, MovedPaths(paths0, "/a"), "/a", "/a/b")
    ensures a in inodes && inodes[a] == "/a/b" && "/a/b" !in paths
    ensures "/a/b/b" in paths && paths["/a/b/b"] == b
    ensures !Inverse(inodes, paths)
  {
    LostNames();
    assert "/a" in MovedPaths(paths0, "/a");
    hide Under, Sub, Renamed;
    LostPaths(paths0, paths);
  }

  lemma LostPaths(paths0: Paths, paths: Paths)
    requires "/a" in paths0 && "/a/b" in paths0 && "/a/b/b" !in paths0 && Renamed(paths0, paths, "/a", "/a/b")
    ensures "/a/b" !in paths && "/a/b/b" in paths && paths["/a/b/b"] == paths0["/a/b"]
  {
    LostNames();
    hide Under, Sub;
    assert Origin("/a/b/b", "/a", "/a/b") == "/a/b";
  }

  lemma LostNames()
    ensures |"/"| < |"/a"| < |"/a/b"| < |"/a/b/b"|
    ensures Under("/a", "/a") && Under("/a/b", "/a") && Under("/a/b", "/a/b") && Under("/a/b/b", "/a/b")
    ensures Sub("/a", "/a", "/a/b") == "/a/b" && Sub("/a/b", "/a/b", "/a") == "/a" && Sub("/a/b/b", "/a/b", "/a") == "/a/b"
  {
    assert "/a" + "/" == "/a/b"[..3];
    assert "/a/b" + "/" == "/a/b/b"[..5];
    assert "/a/b" + "/a/b"[4..] == "/a/b" && "/a" + "/a/b"[4..] == "/a" && "/a" + "/a/b/b"[4..] == "/a/b";
    assert "/a/b" + "/a"[2..] == "/a/b";
  }

  // sort_by_key(path.len())
  method ByLength(paths: set<string>) returns (order: seq<string>)
    ensures Shortest(order, paths)
  {
    order := [];
    var left := paths;
    while left != {}
      invariant left <= paths && forall p :: p in paths <==> p in left || p in order
      invariant forall i :: 0 <= i < |order| ==> order[i] !in left
      invariant forall i, j :: 0 <= i < j < |order| ==> order[i] != order[j] && |order[i]| <= |order[j]|
      invariant forall i, p :: 0 <= i < |order| && p in left ==> |order[i]| <= |p|
      decreases |left|
    {
      var p := ShortestOf(left);
      order := order + [p];
      left := left - {p};
    }
  }

  method ShortestOf(paths: set<string>) returns (p: string)
    requires paths != {}
    ensures p in paths && forall q :: q in paths ==> |p| <= |q|
  {
    p :| p in paths;
    var left := paths - {p};
    while left != {}
      invariant left <= paths && p in paths && forall q :: q in paths && q !in left ==> |p| <= |q|
      decreases |left|
    {
      var q :| q in left;
      if |q| < |p| { p := q; }
      left := left - {q};
    }
  }

  function First(order: seq<string>, k: nat): set<string>
    requires k <= |order|
  {
    set p | p in order[..k]
  }

  // The paths in order of length, each once.
  ghost predicate Shortest(order: seq<string>, paths: set<string>) {
    (forall p :: p in paths <==> p in order) &&
    forall i, j :: 0 <= i < j < |order| ==> order[i] != order[j] && |order[i]| <= |order[j]|
  }

  lemma OrderNext(order: seq<string>, moved: set<string>, k: nat)
    requires Shortest(order, moved) && k < |order|
    ensures NextIs(moved, First(order, k), order[k])
    ensures First(order, k) + {order[k]} == First(order, k + 1)
  {
    var done := First(order, k);
    forall i | 0 <= i < k ensures order[i] in done {
      assert order[..k][i] == order[i];
    }
    assert order[..k + 1] == order[..k] + [order[k]];
    forall p | p in moved && p !in done ensures |order[k]| <= |p| {
      var i :| 0 <= i < |order| && order[i] == p;
    }
  }

  lemma OrderMembers(order: seq<string>, moved: set<string>, paths: Paths, oldPath: string)
    requires Shortest(order, moved) && Moving(paths, moved, oldPath)
    ensures forall k :: 0 <= k < |order| ==> order[k] in paths && Under(order[k], oldPath)
  {
    hide Under;
    forall k | 0 <= k < |order| ensures order[k] in paths && Under(order[k], oldPath) {
      assert order[k] in order;
    }
  }

  // Some path at or below dir is in the table.
  ghost predicate Known(paths: Paths, dir: string) {
    exists p :: p in paths && Under(p, dir)
  }

  function MovedPaths(paths: Paths, dir: string): set<string> {
    set p | p in paths && Under(p, dir)
  }

  lemma KnownIsMoved(paths: Paths, dir: string)
    ensures Moving(paths, MovedPaths(paths, dir), dir)
    ensures MovedPaths(paths, dir) == {} <==> !Known(paths, dir)
  {
    if Known(paths, dir) {
      var p :| p in paths && Under(p, dir);
      assert p in MovedPaths(paths, dir);
    }
  }

  lemma OrderEnd(order: seq<string>, moved: set<string>)
    requires Shortest(order, moved)
    ensures First(order, |order|) == moved
  {
    assert order[..|order|] == order;
  }

  lemma MidStart(paths0: Paths, inodes0: Inodes, paths: Paths, inodes: Inodes, oldPath: string, newPath: string)
    requires Dropped(paths0, inodes0, paths, inodes, newPath)
    ensures MidPaths(paths0, paths, {}, oldPath, newPath) && MidInodes(inodes0, inodes, {}, oldPath, newPath)
  {
    hide Under, Sub;
  }

  lemma MovedBelow(inodes0: Inodes, inodes: Inodes, moved: set<string>, oldPath: string, newPath: string, next: nat)
    requires Below(inodes0, next) && MidInodes(inodes0, inodes, moved, oldPath, newPath)
    ensures Below(inodes, next)
  {
    hide Under, Sub;
  }

  lemma HintKeepsInverse(inodes0: Inodes, paths0: Paths, inode: nat, path: string)
    requires Inverse(inodes0, paths0)
    ensures Inverse(inodes0[inode := path], paths0[path := inode]) <==>
      (path in paths0 ==> paths0[path] == inode) && (inode in inodes0 ==> inodes0[inode] == path)
  {
    var inodes, paths := inodes0[inode := path], paths0[path := inode];
    if path in paths0 && paths0[path] != inode {
      assert paths0[path] in inodes && inodes[paths0[path]] == path;
    }
    if inode in inodes0 && inodes0[inode] != path {
      assert inodes0[inode] in paths && paths[inodes0[inode]] == inode;
    }
  }
}
