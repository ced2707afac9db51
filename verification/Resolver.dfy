// Resolving a path dentry by dentry, without any cache: the reference handle_resolve_path_ex is
// compared with.
module Resolver {
  import opened Bytes
  import opened FsTypes

  datatype LookupResult = Found(target: DentryTarget) | Absent | Failed

  // One name in one directory: the upper dentry if there is one, else the base object's child.
  function Lookup(db: Db, objects: DirObjects, dir: InodeId, name: Name): LookupResult {
    if (dir, name) in db.dentries then Found(db.dentries[(dir, name)].target)
    else if dir !in db.nodes then Failed
    else if db.nodes[dir].Kind() != Dir then Absent
    else LookupBase(objects, db.nodes[dir].baseObj, name)
  }

  // lookup_base_dirobj_child
  function LookupBase(objects: DirObjects, base: Option<ObjId>, name: Name): LookupResult {
    if base.None? then Absent
    else if base.value.kind != DirObj then Failed
    else if (base.value, name) in objects then Found(Obj(objects[(base.value, name)]))
    else Absent
  }

  datatype WalkOutcome =
    | AtInode(id: InodeId)
    | AtObj(objId: ObjId, index: nat)
    | AtLink(link: string, index: nat)
    | Missing
    | Broken

  // Walks components i, i + 1, ... from directory dir.
  function WalkFrom(db: Db, objects: DirObjects, dir: InodeId, path: Path, i: nat): (w: WalkOutcome)
    requires i <= |path|
    ensures w.AtObj? || w.AtLink? ==> i <= w.index < |path|
    ensures w.AtInode? ==> w.id in db.nodes
    decreases |path| - i
  {
    if i == |path| then (if dir in db.nodes then AtInode(dir) else Missing)
    else
      match Lookup(db, objects, dir, path[i])
      case Failed => Broken
      case Absent => Missing
      case Found(Tombstone) => Missing
      case Found(Inode(id)) => WalkFrom(db, objects, id, path, i + 1)
      case Found(Obj(o)) => AtObj(o, i)
      case Found(SymLink(target)) => AtLink(target, i)
  }

  datatype Item = InodeItem(id: InodeId, node: NodeRecord) | ObjItem(objId: ObjId) | LinkItem(target: string)

  // What a resolve answers: an error, nothing, or an item with the path inside it that is left.
  datatype Answer = Error | Nothing | Resolved(item: Item, inner: Path)

  function Resolve(db: Db, objects: DirObjects, path: Path, budget: nat): Answer
    decreases budget
  {
    match WalkFrom(db, objects, ROOT, path, 0)
    case Broken => Error
    case Missing => Nothing
    case AtInode(id) => Resolved(InodeItem(id, db.nodes[id]), [])
    case AtObj(o, i) => Resolved(ObjItem(o), path[i + 1..])
    case AtLink(target, i) =>
      if budget == 0 then Resolved(LinkItem(target), path[i + 1..])
      else Resolve(db, objects, Normalize(path[..i], target, path[i + 1..]), budget - 1)
  }

  // ---- what a resolve answers at each kind of target ----

  lemma {:induction false} WalkOn(db: Db, objects: DirObjects, dir: InodeId, path: Path, i: nat, more: Path)
    requires i <= |path|
    ensures match WalkFrom(db, objects, dir, path, i)
            case AtInode(id) => WalkFrom(db, objects, dir, path + more, i) == WalkFrom(db, objects, id, path + more, |path|)
            case Missing => true
            case w => WalkFrom(db, objects, dir, path + more, i) == w
    decreases |path| - i
  {
    if i < |path| {
      assert (path + more)[i] == path[i];
      match Lookup(db, objects, dir, path[i])
      case Found(Inode(id)) => WalkOn(db, objects, id, path, i + 1, more);
      case _ =>
    }
  }

  // What a resolve is to answer when the first k components lead to the directory inode dir: an object answers
  // itself with all of the rest as the path inside it, a link does the same once the budget is used up and else is
  // followed, and nothing is found at a tombstone or an absent name.
  ghost predicate RightAt(db: Db, objects: DirObjects, path: Path, k: nat, dir: InodeId, budget: nat, answer: Answer)
    requires k < |path|
  {
    match Lookup(db, objects, dir, path[k])
    case Found(Obj(o)) => answer == Resolved(ObjItem(o), path[k + 1..])
    case Found(SymLink(target)) =>
      if budget == 0 then answer == Resolved(LinkItem(target), path[k + 1..])
      else answer == Resolve(db, objects, Normalize(path[..k], target, path[k + 1..]), budget - 1)
    case Found(Tombstone) => answer == Nothing
    case Absent => answer == Nothing
    case Failed => answer == Error
    case Found(Inode(id)) =>
      k + 1 == |path| ==> answer == if id in db.nodes then Resolved(InodeItem(id, db.nodes[id]), []) else Nothing
  }

  ghost predicate RightAnswer(db: Db, objects: DirObjects, path: Path, budget: nat, answer: Answer) {
    forall k: nat :: k < |path| && WalkFrom(db, objects, ROOT, path[..k], 0).AtInode? ==>
      RightAt(db, objects, path, k, WalkFrom(db, objects, ROOT, path[..k], 0).id, budget, answer)
  }

  lemma ResolveIsRight(db: Db, objects: DirObjects, path: Path, budget: nat)
    ensures RightAnswer(db, objects, path, budget, Resolve(db, objects, path, budget))
  {
    hide RightAt;
    forall k: nat | k < |path| && WalkFrom(db, objects, ROOT, path[..k], 0).AtInode?
      ensures RightAt(db, objects, path, k, WalkFrom(db, objects, ROOT, path[..k], 0).id, budget, Resolve(db, objects, path, budget))
    {
      ResolveEntry(db, objects, path, k, WalkFrom(db, objects, ROOT, path[..k], 0).id, budget);
    }
  }

  lemma ResolveEntry(db: Db, objects: DirObjects, path: Path, k: nat, dir: InodeId, budget: nat)
    requires k < |path| && WalkFrom(db, objects, ROOT, path[..k], 0) == AtInode(dir)
    ensures RightAt(db, objects, path, k, dir, budget, Resolve(db, objects, path, budget))
  {
    hide Normalize, Lookup;
    assert path[..k] + path[k..] == path;
    WalkOn(db, objects, ROOT, path[..k], 0, path[k..]);
  }

  // What is left inside an object or an unexpanded link is what follows it in the path; an inode leaves nothing.
  lemma {:induction false} ResolveInside(db: Db, objects: DirObjects, path: Path, more: Path, budget: nat)
    requires Resolve(db, objects, path, budget).Resolved?
    ensures var answer := Resolve(db, objects, path, budget);
            if answer.item.InodeItem? then answer.inner == []
            else Resolve(db, objects, path + more, budget) == Resolved(answer.item, answer.inner + more)
    decreases budget
  {
    hide Normalize, Lookup;
    WalkOn(db, objects, ROOT, path, 0, more);
    match WalkFrom(db, objects, ROOT, path, 0)
    case AtLink(target, i) =>
      RestOfPath(path, more, i);
      NormalizeMore(path[..i], target, path[i + 1..], more);
      if budget > 0 { ResolveInside(db, objects, Normalize(path[..i], target, path[i + 1..]), more, budget - 1); }
    case AtObj(o, i) =>
      RestOfPath(path, more, i);
    case _ =>
  }

  lemma RestOfPath(path: Path, more: Path, i: nat)
    requires i < |path|
    ensures (path + more)[..i] == path[..i] && (path + more)[i + 1..] == path[i + 1..] + more
  {
  }

  lemma NormalizeMore(prefix: Path, target: string, tail: Path, more: Path)
    ensures Normalize(prefix, target, tail + more) == Normalize(prefix, target, tail) + more
  {
  }

  // ---- normalizing the target of a symbolic link ----

  // str::split('/')
  function SplitSlash(s: string): (parts: seq<string>)
    ensures parts != []
    ensures forall k :: 0 <= k < |parts| ==> '/' !in parts[k]
  {
    if s == "" then [""]
    else
      var rest := SplitSlash(s[1..]);
      if s[0] == '/' then [""] + rest else [[s[0]] + rest[0]] + rest[1..]
  }

  function ApplySegment(out: Path, segment: string): Path {
    if segment == "" || segment == "." then out
    else if segment == ".." then (if out == [] then [] else out[..|out| - 1])
    else out + [segment]
  }

  function ApplySegments(out: Path, segments: seq<string>): Path {
    if segments == [] then out
    else ApplySegment(ApplySegments(out, segments[..|segments| - 1]), segments[|segments| - 1])
  }

  predicate IsAbsolute(target: string) { target != "" && target[0] == '/' }

  function Normalize(prefix: Path, target: string, tail: Path): Path {
    ApplySegments(if IsAbsolute(target) then [] else prefix, SplitSlash(target)) + tail
  }

  // normalize_symlink_target_path
  method NormalizeSymlinkTarget(prefix: Path, target: string, tail: Path) returns (out: Path)
    ensures out == Normalize(prefix, target, tail)
  {
    out := if IsAbsolute(target) then [] else prefix;
    ghost var start := out;
    var segments := SplitSlash(target);
    for k := 0 to |segments|
      invariant out == ApplySegments(start, segments[..k])
    {
      assert segments[..k + 1][..k] == segments[..k];
      if segments[k] == "" || segments[k] == "." {
      } else if segments[k] == ".." {
        if out != [] { out := out[..|out| - 1]; }
      } else {
        out := out + [segments[k]];
      }
    }
    assert segments[..|segments|] == segments;
    out := out + tail;
  }

  // A plain component: a name, not a dot segment, and without a slash.
  predicate Plain(name: string) {
    name != "" && name != "." && name != ".." && '/' !in name
  }

  ghost predicate PlainPath(path: Path) {
    forall k :: 0 <= k < |path| ==> Plain(path[k])
  }

  lemma {:induction false} SegmentsArePlain(out: Path, segments: seq<string>)
    requires PlainPath(out) && forall k :: 0 <= k < |segments| ==> '/' !in segments[k]
    ensures PlainPath(ApplySegments(out, segments))
  {
    if segments != [] { SegmentsArePlain(out, segments[..|segments| - 1]); }
  }

  // Dot segments of a link target never survive.
  lemma NormalizedIsPlain(prefix: Path, target: string, tail: Path)
    requires PlainPath(prefix) && PlainPath(tail)
    ensures PlainPath(Normalize(prefix, target, tail))
  {
    SegmentsArePlain(if IsAbsolute(target) then [] else prefix, SplitSlash(target));
  }

  // join_components: the textual form of a non-empty component list.
  function Join(path: Path): string {
    if path == [] then "" else Join(path[..|path| - 1]) + "/" + path[|path| - 1]
  }

  lemma {:induction false} SplitPlain(t: string)
    requires '/' !in t
    ensures SplitSlash(t) == [t]
  {
    if t != "" {
      SplitPlain(t[1..]);
      assert t == [t[0]] + t[1..];
    }
  }

  lemma {:induction false} SplitLast(s: string, t: string)
    requires '/' !in t
    ensures SplitSlash(s + "/" + t) == SplitSlash(s) + [t]
  {
    if s == "" {
      assert (s + "/" + t)[1..] == t;
      SplitPlain(t);
    } else {
      assert (s + "/" + t)[1..] == s[1..] + "/" + t;
      SplitLast(s[1..], t);
      var rest := SplitSlash(s[1..]);
      assert (rest + [t])[1..] == rest[1..] + [t];
    }
  }

  lemma {:induction false} AppliedJoin(out: Path, path: Path)
    requires PlainPath(path)
    ensures ApplySegments(out, SplitSlash(Join(path))) == out + path
  {
    if path == [] {
      assert [""][..0] == [];
    } else {
      var front, last := path[..|path| - 1], path[|path| - 1];
      AppliedJoin(out, front);
      SplitLast(Join(front), last);
      var parts := SplitSlash(Join(front));
      assert (parts + [last])[..|parts|] == parts;
      assert out + front + [last] == out + path;
    }
  }

  lemma {:induction false} JoinIsAbsolute(path: Path)
    requires path != []
    ensures IsAbsolute(Join(path))
  {
    if |path| > 1 { JoinIsAbsolute(path[..|path| - 1]); }
  }

  // Following a link to the textual form of a path is following the path, wherever the link is.
  lemma NormalizeJoined(prefix: Path, path: Path, tail: Path)
    requires PlainPath(path) && path != []
    ensures Normalize(prefix, Join(path), tail) == path + tail
  {
    JoinIsAbsolute(path);
    AppliedJoin([], path);
    assert [] + path == path;
  }

  // ---- link texts part by part ----

  // One part of a relative text: a name goes down, ".." goes up but not above the root, "." and "" stay.
  lemma NormalizePart(prefix: Path, name: Name, tail: Path)
    requires Plain(name)
    ensures Normalize(prefix, name, tail) == prefix + [name] + tail
    ensures Normalize(prefix + [name], "..", tail) == prefix + tail && Normalize([], "..", tail) == tail
    ensures Normalize(prefix, ".", tail) == prefix + tail && Normalize(prefix, "", tail) == prefix + tail
  {
    OnePart(prefix, name);
    OnePart(prefix, ".");
    OnePart([], "..");
    OnePart(prefix + [name], "..");
    assert (prefix + [name])[..|prefix|] == prefix;
    assert SplitSlash("") == [""];
    assert [""][..0] == [];
    assert [] + tail == tail;
  }

  lemma OnePart(out: Path, part: string)
    requires '/' !in part
    ensures ApplySegments(out, SplitSlash(part)) == ApplySegment(out, part) && !IsAbsolute(part)
  {
    SplitPlain(part);
    assert [part][..0] == [];
  }

  lemma {:induction false} ApplyAppend(out: Path, a: seq<string>, b: seq<string>)
    ensures ApplySegments(out, a + b) == ApplySegments(ApplySegments(out, a), b)
    decreases |b|
  {
    if b == [] {
      assert a + b == a;
    } else {
      assert (a + b)[..|a + b| - 1] == a + b[..|b| - 1];
      ApplyAppend(out, a, b[..|b| - 1]);
    }
  }

  lemma GlueHead(c: char, rest: seq<string>, more: seq<string>)
    requires rest != []
    ensures [[c] + (rest + more)[0]] + (rest + more)[1..] == ([[c] + rest[0]] + rest[1..]) + more
  {
    assert (rest + more)[1..] == rest[1..] + more;
  }

  lemma {:induction false} SplitAt(s: string, t: string)
    ensures SplitSlash(s + "/" + t) == SplitSlash(s) + SplitSlash(t)
    decreases |s|
  {
    if s == "" {
      assert (s + "/" + t)[1..] == t;
    } else {
      assert (s + "/" + t)[1..] == s[1..] + "/" + t;
      assert (s + "/" + t)[0] == s[0];
      SplitAt(s[1..], t);
      var rest, more := SplitSlash(s[1..]), SplitSlash(t);
      GlueHead(s[0], rest, more);
      assert [""] + (rest + more) == ([""] + rest) + more;
    }
  }

  // A text in two parts is followed in two steps, the second from where the first ends.
  lemma NormalizeSteps(prefix: Path, s: string, t: string, tail: Path)
    requires s != "" && !IsAbsolute(t)
    ensures Normalize(prefix, s + "/" + t, tail) == Normalize(Normalize(prefix, s, []), t, tail)
    ensures IsAbsolute(s) ==> Normalize(prefix, s, tail) == Normalize([], s, tail)
  {
    SplitAt(s, t);
    var start := if IsAbsolute(s) then [] else prefix;
    assert (s + "/" + t)[0] == s[0];
    ApplyAppend(start, SplitSlash(s), SplitSlash(t));
    assert Normalize(prefix, s, []) == ApplySegments(start, SplitSlash(s));
  }

  // ---- the budget ----

  // With enough budget for an answer that is not an unexpanded link, more budget changes nothing.
  lemma {:induction false} BudgetMonotone(db: Db, objects: DirObjects, path: Path, budget: nat, more: nat)
    requires budget <= more
    requires !(Resolve(db, objects, path, budget).Resolved? && Resolve(db, objects, path, budget).item.LinkItem?)
    ensures Resolve(db, objects, path, more) == Resolve(db, objects, path, budget)
    decreases budget
  {
    hide Normalize, WalkFrom;
    match WalkFrom(db, objects, ROOT, path, 0)
    case AtLink(target, i) =>
      BudgetMonotone(db, objects, Normalize(path[..i], target, path[i + 1..]), budget - 1, more - 1);
    case _ =>
  }
}
