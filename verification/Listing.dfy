// Listing a directory: the merged view of the upper rows and the base object, and paging through it.
module Listing {
  import opened Bytes
  import opened FsTypes
  import opened Resolver
  import opened NamespaceState
  import opened NameOrder

  datatype ListEntry = ListEntry(target: DentryTarget, node: Option<NodeRecord>)

  type Entries = map<Name, ListEntry>

  // load_base_dir_children: a wrong kind of base object is an error.
  function BaseChildren(objects: DirObjects, base: Option<ObjId>): Result<map<Name, ObjId>, NsError> {
    if base.None? then Ok(map[])
    else if base.value.kind != DirObj then Err(LookupFailed)
    else Ok(map k | k in objects && k.0 == base.value :: k.1 := objects[k])
  }

  function At(m: map<Name, DentryTarget>, name: Name): Option<DentryTarget> {
    if name in m then Some(m[name]) else None
  }

  // A name in the upper rows laid over the base: a row hides the base, a tombstone hides the name.
  function Overlaid(db: Db, parent: InodeId, base: map<Name, DentryTarget>, name: Name): Option<DentryTarget> {
    if (parent, name) !in db.dentries then At(base, name)
    else if db.dentries[(parent, name)].target == Tombstone then None
    else Some(db.dentries[(parent, name)].target)
  }

  // The first loop of list_merged_dentries.
  method ListBase(children: map<Name, ObjId>) returns (merged: map<Name, DentryTarget>)
    ensures forall n :: At(merged, n) == if n in children then Some(Obj(children[n])) else None
  {
    merged := map[];
    var left := children.Keys;
    while left != {}
      invariant left <= children.Keys && merged.Keys == children.Keys - left
      invariant forall n :: n in merged ==> merged[n] == Obj(children[n])
      decreases |left|
    {
      var name :| name in left;
      merged := merged[name := Obj(children[name])];
      left := left - {name};
    }
  }

  // The second loop of list_merged_dentries.
  method OverlayRows(db: Db, parent: InodeId, base: map<Name, DentryTarget>) returns (merged: map<Name, DentryTarget>)
    ensures forall n :: At(merged, n) == Overlaid(db, parent, base, n)
  {
    merged := base;
    var rows := set e | e in db.dentries && e.0 == parent;
    while rows != {}
      invariant forall e :: e in rows ==> e in db.dentries && e.0 == parent
      invariant forall n :: At(merged, n) == if (parent, n) in rows then At(base, n) else Overlaid(db, parent, base, n)
      decreases |rows|
    {
      var e :| e in rows;
      var target := db.dentries[e].target;
      if target == Tombstone {
        merged := merged - {e.1};
      } else {
        merged := merged[e.1 := target];
      }
      rows := rows - {e};
    }
  }

  // Directories whose base is not a directory object cannot be listed.
  predicate Listable(db: Db, parent: InodeId) {
    parent in db.nodes && db.nodes[parent].Kind() == Dir &&
    (db.nodes[parent].baseObj.Some? ==> db.nodes[parent].baseObj.value.kind == DirObj)
  }

  // The name is listed with a target.
  predicate Lists(merged: map<Name, DentryTarget>, name: Name, t: DentryTarget) {
    At(merged, name) == Some(t)
  }

  // list_merged_dentries: a name is listed with a target exactly if looking it up finds that target.
  method ListMergedDentries(db: Db, objects: DirObjects, parent: InodeId)
    returns (r: Result<map<Name, DentryTarget>, NsError>)
    ensures r.Ok? <==> Listable(db, parent)
    ensures r.Ok? ==> forall name, t :: Lists(r.value, name, t) <==> Lookup(db, objects, parent, name) == Found(t) && t != Tombstone
  {
    if parent !in db.nodes { return Err(ParentNotFound); }
    var node := db.nodes[parent];
    if node.Kind() != Dir { return Err(NotDirectory); }
    var children := BaseChildren(objects, node.baseObj);
    if children.Err? { return Err(children.error); }
    BaseChildrenAreLookups(objects, node.baseObj);
    hide BaseChildren, LookupBase;
    var base := ListBase(children.value);
    var merged := OverlayRows(db, parent, base);
    return Ok(merged);
  }

  lemma BaseChildrenAreLookups(objects: DirObjects, base: Option<ObjId>)
    requires BaseChildren(objects, base).Ok?
    ensures forall n :: LookupBase(objects, base, n) == ChildLookup(BaseChildren(objects, base).value, n)
  {
  }

  function ChildLookup(children: map<Name, ObjId>, name: Name): LookupResult {
    if name in children then Found(Obj(children[name])) else Absent
  }

  // handle_start_list up to the session: listed inodes come with their record.
  method EntriesOf(db: Db, merged: map<Name, DentryTarget>) returns (entries: Entries)
    ensures entries.Keys == merged.Keys
    ensures forall n :: n in entries ==> entries[n].target == merged[n]
    ensures forall n :: n in entries && merged[n].Inode? ==>
      entries[n].node == if merged[n].id in db.nodes then Some(db.nodes[merged[n].id]) else None
  {
    entries := map[];
    var left := merged.Keys;
    while left != {}
      invariant left <= merged.Keys && entries.Keys == merged.Keys - left
      invariant forall n :: n in entries ==> entries[n].target == merged[n]
      invariant forall n :: n in entries && merged[n].Inode? ==>
        entries[n].node == if merged[n].id in db.nodes then Some(db.nodes[merged[n].id]) else None
      decreases |left|
    {
      var name :| name in left;
      var target := merged[name];
      var node := if target.Inode? && target.id in db.nodes then Some(db.nodes[target.id]) else None;
      entries := entries[name := ListEntry(target, node)];
      left := left - {name};
    }
  }

  // ---- paging ----

  // The names a cursor has still to come to.
  function NamesAfter(names: set<Name>, cursor: Option<Name>): seq<Name> {
    InOrder(Later(names, cursor))
  }

  function Later(names: set<Name>, cursor: Option<Name>): set<Name> {
    if cursor.None? then names else set n | n in names && Less(cursor.value, n)
  }

  // Page size 0 asks for everything.
  function PageLength(pageSize: nat, available: nat): nat {
    if pageSize == 0 then available else Min(pageSize, available)
  }

  function PageNames(names: set<Name>, cursor: Option<Name>, pageSize: nat): seq<Name> {
    NamesAfter(names, cursor)[..PageLength(pageSize, |NamesAfter(names, cursor)|)]
  }

  // An empty page leaves the cursor where it is.
  function NextCursor(names: set<Name>, cursor: Option<Name>, pageSize: nat): Option<Name> {
    var page := PageNames(names, cursor, pageSize);
    if page == [] then cursor else Some(page[|page| - 1])
  }

  // The items are the named entries, in that order.
  ghost predicate ItemsOf(items: seq<(Name, ListEntry)>, names: seq<Name>, entries: Entries) {
    |items| == |names| &&
    forall i :: 0 <= i < |items| ==> items[i].0 == names[i] && names[i] in entries && items[i].1 == entries[names[i]]
  }

  lemma ItemsNone(names: seq<Name>, entries: Entries)
    ensures ItemsOf([], names[..0], entries)
  {
  }

  lemma ItemsPush(items: seq<(Name, ListEntry)>, names: seq<Name>, i: nat, entries: Entries)
    requires i < |names| && ItemsOf(items, names[..i], entries) && names[i] in entries
    ensures ItemsOf(items + [(names[i], entries[names[i]])], names[..i + 1], entries)
  {
  }

  lemma ItemsLast(items: seq<(Name, ListEntry)>, names: seq<Name>, entries: Entries)
    requires ItemsOf(items, names, entries)
    ensures |items| == |names| && (items != [] ==> items[|items| - 1].0 == names[|names| - 1])
  {
  }

  lemma RangeInEntries(entries: Entries, cursor: Option<Name>)
    ensures forall j :: 0 <= j < |NamesAfter(entries.Keys, cursor)| ==> NamesAfter(entries.Keys, cursor)[j] in entries
  {
    forall j | 0 <= j < |NamesAfter(entries.Keys, cursor)| ensures NamesAfter(entries.Keys, cursor)[j] in entries {
      assert NamesAfter(entries.Keys, cursor)[j] in NamesAfter(entries.Keys, cursor);
    }
  }

  lemma PageEnd(names: set<Name>, cursor: Option<Name>, pageSize: nat, i: nat)
    requires i <= |NamesAfter(names, cursor)|
    requires if pageSize == 0 then i == |NamesAfter(names, cursor)| else i == Min(pageSize, |NamesAfter(names, cursor)|)
    ensures PageNames(names, cursor, pageSize) == NamesAfter(names, cursor)[..i]
  {
    hide NamesAfter;
  }

  // page_from_ordered_map
  method PageFromOrderedMap(entries: Entries, cursor: Option<Name>, pageSize: nat)
    returns (page: seq<(Name, ListEntry)>, next: Option<Name>)
    ensures ItemsOf(page, PageNames(entries.Keys, cursor, pageSize), entries)
    ensures next == NextCursor(entries.Keys, cursor, pageSize)
    ensures |page| == if pageSize == 0 then |Later(entries.Keys, cursor)| else Min(pageSize, |Later(entries.Keys, cursor)|)
  {
    hide InOrder, Less, ItemsOf;
    var range := NamesAfter(entries.Keys, cursor);
    assert |range| == |Later(entries.Keys, cursor)|;
    RangeInEntries(entries, cursor);
    hide NamesAfter, PageNames;
    page := [];
    ItemsNone(range, entries);
    var i: nat := 0;
    while i < |range| && (pageSize == 0 || i < pageSize)
      invariant i <= |range| && (pageSize == 0 || i <= pageSize)
      invariant ItemsOf(page, range[..i], entries)
    {
      ItemsPush(page, range, i, entries);
      page := page + [(range[i], entries[range[i]])];
      i := i + 1;
    }
    ItemsLast(page, range[..i], entries);
    PageEnd(entries.Keys, cursor, pageSize, i);
    next := cursor;
    if page != [] { next := Some(page[|page| - 1].0); }
  }

  // Collects a page's items into a map.
  method Collect(items: seq<(Name, ListEntry)>, ghost names: seq<Name>, ghost entries: Entries) returns (out: Entries)
    requires ItemsOf(items, names, entries)
    ensures forall n :: n in out <==> n in names
    ensures forall n :: n in out ==> n in entries && out[n] == entries[n]
  {
    out := map[];
    for i := 0 to |items|
      invariant forall n :: n in out <==> n in names[..i]
      invariant forall n :: n in out ==> n in entries && out[n] == entries[n]
    {
      assert names[..i + 1] == names[..i] + [names[i]];
      out := out[items[i].0 := items[i].1];
    }
    assert names[..|items|] == names;
  }

  // After a page, what is left is what the page did not hold.
  lemma AfterPage(names: set<Name>, cursor: Option<Name>, pageSize: nat)
    ensures NamesAfter(names, cursor) ==
      PageNames(names, cursor, pageSize) + NamesAfter(names, NextCursor(names, cursor, pageSize))
  {
    var all, page := NamesAfter(names, cursor), PageNames(names, cursor, pageSize);
    hide NamesAfter;
    if page != [] {
      TailAfter(names, cursor, |page|);
      assert all[..|page|][|page| - 1] == all[|page| - 1];
      assert all == all[..|page|] + all[|page|..];
    }
  }

  // What comes after the k-th of the names still to come is the rest of them.
  lemma TailAfter(names: set<Name>, cursor: Option<Name>, k: nat)
    requires 0 < k <= |NamesAfter(names, cursor)|
    ensures NamesAfter(names, Some(NamesAfter(names, cursor)[k - 1])) == NamesAfter(names, cursor)[k..]
  {
    var all := NamesAfter(names, cursor);
    var last := all[k - 1];
    var rest := NamesAfter(names, Some(last));
    assert last in all;
    forall n ensures n in rest <==> n in all[k..] {
      TailMember(names, cursor, k, n);
    }
    OrderedUnique(rest, all[k..]);
  }

  lemma TailMember(names: set<Name>, cursor: Option<Name>, k: nat, n: Name)
    requires 0 < k <= |NamesAfter(names, cursor)|
    ensures n in NamesAfter(names, Some(NamesAfter(names, cursor)[k - 1])) <==> n in NamesAfter(names, cursor)[k..]
  {
    var all := NamesAfter(names, cursor);
    var last := all[k - 1];
    assert last in all;
    if n in all[k..] {
      var j :| k <= j < |all| && all[j] == n;
      assert Less(all[k - 1], all[j]) && all[j] in all;
    }
    if n in names && Less(last, n) {
      if cursor.Some? { LessTransitive(cursor.value, last, n); }
      assert n in all;
      var j :| 0 <= j < |all| && all[j] == n;
      LaterIsBehind(all, k, j);
      assert all[k..][j - k] == n;
    }
  }

  lemma LaterIsBehind(all: seq<Name>, k: nat, j: nat)
    requires Ordered(all) && j < |all| && 0 < k <= |all| && Less(all[k - 1], all[j])
    ensures k <= j
  {
    LessTotal(all[j], all[k - 1]);
  }

  // The names of a session's pages, one page after the other.
  function Pages(names: set<Name>, cursor: Option<Name>, sizes: seq<nat>): seq<Name>
    decreases |sizes|
  {
    if sizes == [] then []
    else PageNames(names, cursor, sizes[0]) + Pages(names, NextCursor(names, cursor, sizes[0]), sizes[1..])
  }

  // For any page sizes the pages are a prefix of what is to come, and once there are as many pages as
  // names they are all of it.
  lemma {:induction false} PagesAreListing(names: set<Name>, cursor: Option<Name>, sizes: seq<nat>)
    ensures Pages(names, cursor, sizes) <= NamesAfter(names, cursor)
    ensures |sizes| >= |NamesAfter(names, cursor)| ==> Pages(names, cursor, sizes) == NamesAfter(names, cursor)
    decreases |sizes|
  {
    if sizes != [] {
      var next := NextCursor(names, cursor, sizes[0]);
      AfterPage(names, cursor, sizes[0]);
      PageNotEmpty(names, cursor, sizes[0]);
      hide NamesAfter, PageNames, NextCursor;
      PagesAreListing(names, next, sizes[1..]);
      assert Pages(names, cursor, sizes) == PageNames(names, cursor, sizes[0]) + Pages(names, next, sizes[1..]);
    }
  }

  lemma PageNotEmpty(names: set<Name>, cursor: Option<Name>, pageSize: nat)
    ensures PageNames(names, cursor, pageSize) == [] ==> NamesAfter(names, cursor) == []
  {
    hide NamesAfter;
  }

  // From the start, that is the whole listing in order, each name once.
  lemma PagingLosesNothing(names: set<Name>, sizes: seq<nat>)
    requires |sizes| >= |names|
    ensures Pages(names, None, sizes) == InOrder(names)
  {
    PagesAreListing(names, None, sizes);
  }

  // ---- sessions ----

  const U64_MAX: nat := 0xFFFF_FFFF_FFFF_FFFF

  datatype ListSession = ListSession(entries: Entries, cursor: Option<Name>)

  class ListCache {
    var nextSessionId: nat
    var sessions: map<nat, ListSession>

    ghost predicate Valid()
      reads this
    {
      nextSessionId <= U64_MAX && forall id :: id in sessions ==> id < nextSessionId || nextSessionId == U64_MAX
    }

    constructor ()
      ensures Valid() && sessions == map[] && nextSessionId == 1
    {
      nextSessionId, sessions := 1, map[];
    }

    // start_session: a new id, until the counter saturates
    method StartSession(entries: Entries) returns (id: nat)
      requires Valid()
      modifies this
      ensures Valid() && id == old(nextSessionId) && sessions == old(sessions)[id := ListSession(entries, None)]
      ensures old(nextSessionId) < U64_MAX ==> id !in old(sessions) && nextSessionId == id + 1
    {
      id := nextSessionId;
      nextSessionId := if nextSessionId < U64_MAX then nextSessionId + 1 else U64_MAX;
      sessions := sessions[id := ListSession(entries, None)];
    }

    // list_next: the session's next page, and nothing for an unknown session
    method ListNext(id: nat, pageSize: nat) returns (page: Option<Entries>)
      requires Valid()
      modifies this`sessions
      ensures Valid()
      ensures page.Some? <==> id in old(sessions)
      ensures page.None? ==> sessions == old(sessions)
      ensures page.Some? ==>
        var s := old(sessions)[id];
        (forall n :: n in page.value <==> n in PageNames(s.entries.Keys, s.cursor, pageSize)) &&
        (forall n :: n in page.value ==> n in s.entries && page.value[n] == s.entries[n]) &&
        sessions == old(sessions)[id := ListSession(s.entries, NextCursor(s.entries.Keys, s.cursor, pageSize))]
    {
      if id !in sessions { return None; }
      var s := sessions[id];
      var items, next := PageFromOrderedMap(s.entries, s.cursor, pageSize);
      hide PageNames, NextCursor;
      var out := Collect(items, PageNames(s.entries.Keys, s.cursor, pageSize), s.entries);
      sessions := sessions[id := ListSession(s.entries, next)];
      return Some(out);
    }

    // stop_session
    method StopSession(id: nat) returns (removed: bool)
      requires Valid()
      modifies this`sessions
      ensures Valid() && sessions == old(sessions) - {id} && (removed <==> id in old(sessions))
    {
      removed := id in sessions;
      sessions := sessions - {id};
    }
  }
}
