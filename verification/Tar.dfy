/** Writing a file or folder as a tar stream.

  A tree answers by path and never changes. It may be endless: a path can go on
  for ever, as it does when the folder graph has a cycle.
 */
module Tar {
  import opened Order
  import opened Common
  import opened Paging
  import Paths

  type Path = seq<Bytes>

  /** An error of the browse API, or any other error. */
  datatype Trouble = Api(code: Code) | Other

  /** What a walk of a folder does: the entries it visits and how it ends. */
  datatype Walked = Walked(entries: seq<Entry>, trouble: Option<Trouble>)

  /** What opening a file gives: its size, and the bytes that a copy of it yields
      or the error it ends with. */
  datatype Opened = Opened(size: nat, copied: Result<nat, Trouble>) | Refused(trouble: Trouble)

  datatype Tree = Tree(stat: Path -> Result<Entry, Trouble>, walk: Path -> Walked, open: Path -> Opened) {
    /** A folder holds each name once, and names are names that a path can hold. */
    ghost predicate Valid() {
      forall p: Path :: FolderOk(walk(p).entries)
    }

    /** Reading an open file does not end with the error that bars a folder. */
    ghost predicate Quiet() {
      forall p: Path :: open(p).Opened? ==> open(p).copied != Err(Api(NotReadable))
    }
  }

  ghost predicate FolderOk(entries: seq<Entry>) {
    && (forall k :: 0 <= k < |entries| ==> Paths.ValidName(entries[k].name))
    && (forall i, j :: 0 <= i < j < |entries| ==> entries[i].name != entries[j].name)
  }

  datatype Report = Report(files: nat, links: nat, skipped: nat, unreadable: nat)

  function Sum(r: Report): (n: nat) {
    r.files + r.links + r.skipped + r.unreadable
  }

  function Plus(a: Report, b: Report): (r: Report) {
    Report(a.files + b.files, a.links + b.links, a.skipped + b.skipped, a.unreadable + b.unreadable)
  }

  // ---- what a tar run does ----

  datatype Member = Member(path: Path, dir: bool)

  /** The headers that a run writes, what it counts, and the error it ends with. */
  datatype Run = Run(members: seq<Member>, rep: Report, trouble: Option<Trouble>)

  function RunEntry(t: Tree, path: Path, e: Entry, top: bool): (r: Run)
    decreases Paths.MAX_PATH_DEPTH + 2 - |path|, |t.walk(path).entries| + 1
  {
    match e.kind
    case Dir => RunDir(t, path, top)
    case Symlink => Run([Member(path, false)], Report(0, 1, 0, 0), None)
    case File => RunRegular(t, path)
    case Special => Run([], Report(0, 0, 1, 0), None)
  }

  function RunRegular(t: Tree, path: Path): (r: Run) {
    match t.open(path)
    case Refused(Api(NotReadable)) => Run([], Report(0, 0, 0, 1), None)
    case Refused(Api(NotFound)) => Run([], Report(0, 0, 1, 0), None)
    case Refused(Api(SpecialFile)) => Run([], Report(0, 0, 1, 0), None)
    case Refused(Api(LinkRefused)) => Run([], Report(0, 0, 1, 0), None)
    case Refused(trouble) => Run([], Report(0, 0, 0, 0), Some(trouble))
    case Opened(size, copied) =>
      if copied.Err? then Run([Member(path, false)], Report(0, 0, 0, 0), Some(copied.error))
      else if copied.value != size then Run([Member(path, false)], Report(0, 0, 0, 0), Some(Other))
      else Run([Member(path, false)], Report(1, 0, 0, 0), None)
  }

  function RunDir(t: Tree, path: Path, top: bool): (r: Run)
    decreases Paths.MAX_PATH_DEPTH + 2 - |path|, |t.walk(path).entries|, 1
  {
    if |path| > Paths.MAX_PATH_DEPTH then Run([], Report(0, 0, 0, 0), Some(Api(BadPath)))
    else Closed(path, top, RunAll(t, path, t.walk(path).entries), t.walk(path).trouble)
  }

  /** A folder's own header, what its entries gave, and how its walk ended. */
  function Closed(path: Path, top: bool, inside: Run, ended: Option<Trouble>): (r: Run) {
    var head := if path == [] then [] else [Member(path, true)];
    var trouble := if inside.trouble.Some? then inside.trouble else ended;
    if trouble == Some(Api(NotReadable)) && !top
    then Run(head + inside.members, inside.rep.(unreadable := inside.rep.unreadable + 1), None)
    else Run(head + inside.members, inside.rep, trouble)
  }

  function RunAll(t: Tree, path: Path, entries: seq<Entry>): (r: Run)
    requires |path| <= Paths.MAX_PATH_DEPTH
    decreases Paths.MAX_PATH_DEPTH + 2 - |path|, |entries|, 0
  {
    if entries == [] then Run([], Report(0, 0, 0, 0), None)
    else
      var first := RunEntry(t, path + [entries[0].name], entries[0], false);
      if first.trouble.Some? then first
      else
        var rest := RunAll(t, path, entries[1..]);
        Run(first.members + rest.members, Plus(first.rep, rest.rep), rest.trouble)
  }

  // ---- no entry gets two headers ----

  ghost predicate Below(path: Path, members: seq<Member>) {
    forall k :: 0 <= k < |members| ==> path <= members[k].path
  }

  ghost predicate DistinctPaths(members: seq<Member>) {
    forall i, j :: 0 <= i < j < |members| ==> members[i].path != members[j].path
  }

  /** The members of some entries of a folder lie below those entries. */
  ghost predicate BelowSome(path: Path, entries: seq<Entry>, members: seq<Member>) {
    forall k :: 0 <= k < |members| ==>
      |members[k].path| > |path| && path <= members[k].path && InEntries(members[k].path[|path|], entries)
  }

  ghost predicate InEntries(name: Bytes, entries: seq<Entry>) {
    exists j :: 0 <= j < |entries| && entries[j].name == name
  }

  lemma {:induction false} RunEntryDistinct(t: Tree, path: Path, e: Entry, top: bool)
    requires t.Valid()
    ensures Below(path, RunEntry(t, path, e, top).members) && DistinctPaths(RunEntry(t, path, e, top).members)
    decreases Paths.MAX_PATH_DEPTH + 2 - |path|, |t.walk(path).entries| + 1
  {
    if e.kind == Dir && |path| <= Paths.MAX_PATH_DEPTH {
      var entries := t.walk(path).entries;
      RunAllDistinct(t, path, entries);
      var inside := RunAll(t, path, entries).members;
      assert forall k :: 0 <= k < |inside| ==> inside[k].path != path;
    }
  }

  lemma {:induction false} RunAllDistinct(t: Tree, path: Path, entries: seq<Entry>)
    requires t.Valid() && FolderOk(entries) && |path| <= Paths.MAX_PATH_DEPTH
    ensures BelowSome(path, entries, RunAll(t, path, entries).members)
    ensures DistinctPaths(RunAll(t, path, entries).members)
    decreases Paths.MAX_PATH_DEPTH + 2 - |path|, |entries|, 0
  {
    if entries != [] {
      var name := entries[0].name;
      var first := RunEntry(t, path + [name], entries[0], false);
      RunEntryDistinct(t, path + [name], entries[0], false);
      BelowFirst(path, entries, first.members);
      if first.trouble.None? {
        var rest := RunAll(t, path, entries[1..]);
        RunAllDistinct(t, path, entries[1..]);
        AppendRuns(path, entries, first.members, rest.members);
      }
    }
  }

  lemma {:induction false} BelowFirst(path: Path, entries: seq<Entry>, a: seq<Member>)
    requires entries != [] && Below(path + [entries[0].name], a)
    ensures BelowSome(path, entries, a)
    ensures forall k :: 0 <= k < |a| ==> a[k].path[|path|] == entries[0].name
  {
    forall k | 0 <= k < |a|
      ensures |a[k].path| > |path| && path <= a[k].path && a[k].path[|path|] == entries[0].name
    {
      assert path <= path + [entries[0].name] <= a[k].path;
    }
  }

  lemma {:induction false} AppendRuns(path: Path, entries: seq<Entry>, a: seq<Member>, b: seq<Member>)
    requires entries != [] && FolderOk(entries) && Below(path + [entries[0].name], a) && DistinctPaths(a)
    requires BelowSome(path, entries[1..], b) && DistinctPaths(b)
    ensures BelowSome(path, entries, a + b) && DistinctPaths(a + b)
  {
    BelowFirst(path, entries, a);
    forall k | 0 <= k < |b|
      ensures InEntries(b[k].path[|path|], entries) && b[k].path[|path|] != entries[0].name
    {
      var j :| 0 <= j < |entries[1..]| && entries[1..][j].name == b[k].path[|path|];
      assert entries[j + 1].name == b[k].path[|path|];
    }
  }

  // ---- the counts ----

  /** The non-folder entries that a run reaches and the folders below its top that
      may not be read. */
  function Reached(t: Tree, path: Path, e: Entry, top: bool): (n: nat)
    decreases Paths.MAX_PATH_DEPTH + 2 - |path|, |t.walk(path).entries| + 1
  {
    if e.kind != Dir then 1
    else if |path| > Paths.MAX_PATH_DEPTH then 0
    else ReachedAll(t, path, t.walk(path).entries)
         + if t.walk(path).trouble == Some(Api(NotReadable)) && !top then 1 else 0
  }

  function ReachedAll(t: Tree, path: Path, entries: seq<Entry>): (n: nat)
    requires |path| <= Paths.MAX_PATH_DEPTH
    decreases Paths.MAX_PATH_DEPTH + 2 - |path|, |entries|, 0
  {
    if entries == [] then 0
    else Reached(t, path + [entries[0].name], entries[0], false) + ReachedAll(t, path, entries[1..])
  }

  lemma {:induction false} RunRegularCounts(t: Tree, path: Path)
    requires t.Quiet()
    ensures var r := RunRegular(t, path);
            (r.trouble.None? ==> Sum(r.rep) == 1) && r.trouble != Some(Api(NotReadable))
  {
  }

  lemma {:induction false} ClosedCounts(path: Path, top: bool, inside: Run, ended: Option<Trouble>)
    requires inside.trouble != Some(Api(NotReadable))
    ensures var r := Closed(path, top, inside, ended);
            && (!top ==> r.trouble != Some(Api(NotReadable)))
            && (r.trouble.None? ==>
                  && inside.trouble.None?
                  && Sum(r.rep) == Sum(inside.rep) + if ended == Some(Api(NotReadable)) && !top then 1 else 0)
  {
  }

  /** A run that succeeds counts every non-folder entry it reaches once, and every
      folder below its top that may not be read once. */
  lemma {:induction false} RunCounts(t: Tree, path: Path, e: Entry, top: bool)
    requires t.Quiet()
    ensures var r := RunEntry(t, path, e, top);
            && (r.trouble.None? ==> Sum(r.rep) == Reached(t, path, e, top))
            && (!top ==> r.trouble != Some(Api(NotReadable)))
    decreases Paths.MAX_PATH_DEPTH + 2 - |path|, |t.walk(path).entries| + 1
  {
    match e.kind
    case Dir =>
      if |path| <= Paths.MAX_PATH_DEPTH {
        RunAllCounts(t, path, t.walk(path).entries);
        ClosedCounts(path, top, RunAll(t, path, t.walk(path).entries), t.walk(path).trouble);
      }
    case Symlink =>
    case File => RunRegularCounts(t, path);
    case Special =>
  }

  lemma {:induction false} RunAllCounts(t: Tree, path: Path, entries: seq<Entry>)
    requires t.Quiet() && |path| <= Paths.MAX_PATH_DEPTH
    ensures var r := RunAll(t, path, entries);
            (r.trouble.None? ==> Sum(r.rep) == ReachedAll(t, path, entries)) && r.trouble != Some(Api(NotReadable))
    decreases Paths.MAX_PATH_DEPTH + 2 - |path|, |entries|, 0
  {
    if entries != [] {
      RunCounts(t, path + [entries[0].name], entries[0], false);
      RunAllCounts(t, path, entries[1..]);
    }
  }

  /** Without quiet reads the counts need not add up: when the copy of a file below
      the top ends with NotReadable, its folder passes for one that may not be read,
      the rest of the folder is left out, and the run still succeeds. */
  lemma {:induction false} LoudReadHidesEntries(t: Tree, path: Path, folder: Entry, a: Entry, b: Entry)
    requires 0 < |path| <= Paths.MAX_PATH_DEPTH && folder.kind == Dir && a.kind == File && b.kind == File
    requires t.walk(path) == Walked([a, b], None)
    requires t.open(path + [a.name]) == Opened(1, Err(Api(NotReadable)))
    ensures var r := RunEntry(t, path, folder, false);
            r.trouble.None? && Sum(r.rep) == 1 && Reached(t, path, folder, false) == 2
  {
    var both := [a, b];
    var first := RunRegular(t, path + [a.name]);
    assert first == RunEntry(t, path + [both[0].name], both[0], false);
    assert RunAll(t, path, both) == first && Sum(first.rep) == 0;
    assert both[1..] == [b] && both[1..][1..] == [];
    assert ReachedAll(t, path, both[1..][1..]) == 0;
    assert Reached(t, path + [b.name], b, false) == 1 && Reached(t, path + [a.name], a, false) == 1;
    assert ReachedAll(t, path, both[1..]) == 1;
    assert ReachedAll(t, path, both) == 2 && t.walk(path).entries == both;
  }

  // ---- what the walk reaches ----

  /** The entry of a folder with a name. */
  function NamedIn(entries: seq<Entry>, name: Bytes): (r: Option<Entry>)
    ensures r.Some? ==> r.value in entries && r.value.name == name
  {
    if entries == [] then None
    else if entries[0].name == name then Some(entries[0])
    else NamedIn(entries[1..], name)
  }

  /** What there is at a path below the top, found from folder to folder as their walks
      show them. */
  function EntryAt(t: Tree, top: Path, e: Entry, p: Path): (r: Option<Entry>)
    decreases |p|
  {
    if |p| <= |top| then if p == top then Some(e) else None
    else
      var up := p[..|p| - 1];
      var folder := EntryAt(t, top, e, up);
      if folder.Some? && folder.value.kind == Dir && |up| <= Paths.MAX_PATH_DEPTH
      then NamedIn(t.walk(up).entries, p[|p| - 1]) else None
  }

  datatype Visit = Visit(path: Path, entry: Entry)

  /** The entries from the top down, folder before content. */
  function Visits(t: Tree, path: Path, e: Entry): (r: seq<Visit>)
    decreases Paths.MAX_PATH_DEPTH + 2 - |path|, |t.walk(path).entries| + 1
  {
    if e.kind == Dir && |path| <= Paths.MAX_PATH_DEPTH
    then [Visit(path, e)] + VisitsAll(t, path, t.walk(path).entries)
    else [Visit(path, e)]
  }

  function VisitsAll(t: Tree, path: Path, entries: seq<Entry>): (r: seq<Visit>)
    requires |path| <= Paths.MAX_PATH_DEPTH
    decreases Paths.MAX_PATH_DEPTH + 2 - |path|, |entries|, 0
  {
    if entries == [] then []
    else Visits(t, path + [entries[0].name], entries[0]) + VisitsAll(t, path, entries[1..])
  }

  lemma {:induction false} EntryAtBelow(t: Tree, top: Path, e: Entry, p: Path)
    requires EntryAt(t, top, e, p).Some?
    ensures top <= p
    decreases |p|
  {
    if |p| > |top| {
      EntryAtBelow(t, top, e, p[..|p| - 1]);
    }
  }

  /** Looking from a folder is looking from the entry of it that the path goes through. */
  lemma {:induction false} EntryThrough(t: Tree, top: Path, e: Entry, p: Path)
    requires |p| > |top| && top <= p && e.kind == Dir && |top| <= Paths.MAX_PATH_DEPTH
    ensures var n := p[|top|];
            var child := NamedIn(t.walk(top).entries, n);
            EntryAt(t, top, e, p) == if child.Some? then EntryAt(t, top + [n], child.value, p) else None
    decreases |p|
  {
    var up := p[..|p| - 1];
    if |p| == |top| + 1 {
      assert up == top && p == top + [p[|top|]];
    } else {
      EntryThrough(t, top, e, up);
    }
  }

  /** A path is visited, with its entry, exactly if it is reached. */
  lemma {:induction false} VisitsAreReached(t: Tree, path: Path, e: Entry, v: Visit)
    requires t.Valid()
    ensures v in Visits(t, path, e) <==> EntryAt(t, path, e, v.path) == Some(v.entry)
    decreases Paths.MAX_PATH_DEPTH + 2 - |path|, |t.walk(path).entries| + 1
  {
    if EntryAt(t, path, e, v.path).Some? {
      EntryAtBelow(t, path, e, v.path);
    }
    if e.kind == Dir && |path| <= Paths.MAX_PATH_DEPTH {
      var entries := t.walk(path).entries;
      VisitsAllAreReached(t, path, entries, v);
      if |v.path| > |path| && path <= v.path {
        EntryThrough(t, path, e, v.path);
      }
    } else if |v.path| > |path| && path <= v.path {
      NothingBelow(t, path, e, v.path);
    }
  }

  lemma {:induction false} NothingBelow(t: Tree, top: Path, e: Entry, p: Path)
    requires |p| > |top| && (e.kind != Dir || |top| > Paths.MAX_PATH_DEPTH)
    ensures EntryAt(t, top, e, p).None?
    decreases |p|
  {
    var up := p[..|p| - 1];
    if |up| > |top| {
      NothingBelow(t, top, e, up);
    }
  }

  lemma {:induction false} VisitsAllAreReached(t: Tree, path: Path, entries: seq<Entry>, v: Visit)
    requires t.Valid() && FolderOk(entries) && |path| <= Paths.MAX_PATH_DEPTH
    ensures v in VisitsAll(t, path, entries) <==>
              && |v.path| > |path| && path <= v.path && NamedIn(entries, v.path[|path|]).Some?
              && EntryAt(t, path + [v.path[|path|]], NamedIn(entries, v.path[|path|]).value, v.path) == Some(v.entry)
    decreases Paths.MAX_PATH_DEPTH + 2 - |path|, |entries|, 0
  {
    if entries != [] {
      var first := entries[0];
      VisitsAreReached(t, path + [first.name], first, v);
      VisitsAllAreReached(t, path, entries[1..], v);
      if EntryAt(t, path + [first.name], first, v.path).Some? {
        EntryAtBelow(t, path + [first.name], first, v.path);
        assert v.path[|path|] == first.name;
      }
      assert !InEntries(first.name, entries[1..]);
    }
  }

  // ---- each is visited once ----

  function PathsOf(vs: seq<Visit>): (r: seq<Member>) {
    seq(|vs|, k requires 0 <= k < |vs| => Member(vs[k].path, false))
  }

  lemma {:induction false} VisitsOnce(t: Tree, path: Path, e: Entry)
    requires t.Valid()
    ensures Below(path, PathsOf(Visits(t, path, e))) && DistinctPaths(PathsOf(Visits(t, path, e)))
    decreases Paths.MAX_PATH_DEPTH + 2 - |path|, |t.walk(path).entries| + 1
  {
    if e.kind == Dir && |path| <= Paths.MAX_PATH_DEPTH {
      var entries := t.walk(path).entries;
      VisitsAllOnce(t, path, entries);
      var inside := PathsOf(VisitsAll(t, path, entries));
      assert forall k :: 0 <= k < |inside| ==> inside[k].path != path;
      assert PathsOf(Visits(t, path, e)) == [Member(path, false)] + inside;
    }
  }

  lemma {:induction false} VisitsAllOnce(t: Tree, path: Path, entries: seq<Entry>)
    requires t.Valid() && FolderOk(entries) && |path| <= Paths.MAX_PATH_DEPTH
    ensures BelowSome(path, entries, PathsOf(VisitsAll(t, path, entries)))
    ensures DistinctPaths(PathsOf(VisitsAll(t, path, entries)))
    decreases Paths.MAX_PATH_DEPTH + 2 - |path|, |entries|, 0
  {
    if entries != [] {
      var first, rest := Visits(t, path + [entries[0].name], entries[0]), VisitsAll(t, path, entries[1..]);
      VisitsOnce(t, path + [entries[0].name], entries[0]);
      VisitsAllOnce(t, path, entries[1..]);
      AppendRuns(path, entries, PathsOf(first), PathsOf(rest));
      assert PathsOf(first + rest) == PathsOf(first) + PathsOf(rest);
    }
  }

  // ---- what a run makes of a visit ----

  /** The file opens. */
  predicate Opens(t: Tree, v: Visit) {
    v.entry.kind == File && t.open(v.path).Opened?
  }

  predicate IsLink(v: Visit) {
    v.entry.kind == Symlink
  }

  /** Left out: no file, or one that went away or changed its kind. */
  predicate Skipped(t: Tree, v: Visit) {
    || v.entry.kind == Special
    || (v.entry.kind == File && t.open(v.path).Refused? && t.open(v.path).trouble != Api(NotReadable))
  }

  predicate Unreadable(t: Tree, v: Visit) {
    || (v.entry.kind == File && t.open(v.path) == Refused(Api(NotReadable)))
    || (v.entry.kind == Dir && t.walk(v.path).trouble == Some(Api(NotReadable)))
  }

  function HeaderOf(t: Tree, v: Visit): (r: seq<Member>) {
    if v.entry.kind == Dir then if v.path == [] then [] else [Member(v.path, true)]
    else if Opens(t, v) || IsLink(v) then [Member(v.path, false)]
    else []
  }

  function HeadersOf(t: Tree, vs: seq<Visit>): (r: seq<Member>) {
    if vs == [] then [] else HeaderOf(t, vs[0]) + HeadersOf(t, vs[1..])
  }

  /** What a report counts. */
  datatype Lot = Files | Links | LeftOut | Unread

  predicate Belongs(t: Tree, v: Visit, lot: Lot) {
    match lot
    case Files => Opens(t, v)
    case Links => IsLink(v)
    case LeftOut => Skipped(t, v)
    case Unread => Unreadable(t, v)
  }

  function Part(rep: Report, lot: Lot): (n: nat) {
    match lot
    case Files => rep.files
    case Links => rep.links
    case LeftOut => rep.skipped
    case Unread => rep.unreadable
  }

  function Count(t: Tree, vs: seq<Visit>, lot: Lot): (n: nat) {
    if vs == [] then 0 else (if Belongs(t, vs[0], lot) then 1 else 0) + Count(t, vs[1..], lot)
  }

  /** The counts of the visits, each by its own kind. */
  ghost predicate CountsOf(t: Tree, vs: seq<Visit>, rep: Report) {
    forall lot :: Count(t, vs, lot) == Part(rep, lot)
  }

  lemma {:induction false} HeadersAppend(t: Tree, a: seq<Visit>, b: seq<Visit>)
    ensures HeadersOf(t, a + b) == HeadersOf(t, a) + HeadersOf(t, b)
  {
    if a == [] {
      assert a + b == b;
    } else {
      assert (a + b)[1..] == a[1..] + b;
      HeadersAppend(t, a[1..], b);
    }
  }

  lemma {:induction false} CountAppend(t: Tree, a: seq<Visit>, b: seq<Visit>, lot: Lot)
    ensures Count(t, a + b, lot) == Count(t, a, lot) + Count(t, b, lot)
  {
    if a == [] {
      assert a + b == b;
    } else {
      assert (a + b)[1..] == a[1..] + b;
      CountAppend(t, a[1..], b, lot);
    }
  }

  lemma {:induction false} CountsAppend(t: Tree, a: seq<Visit>, b: seq<Visit>, x: Report, y: Report)
    requires CountsOf(t, a, x) && CountsOf(t, b, y)
    ensures CountsOf(t, a + b, Plus(x, y))
  {
    forall lot ensures Count(t, a + b, lot) == Part(Plus(x, y), lot) {
      CountAppend(t, a, b, lot);
      assert Count(t, a, lot) == Part(x, lot) && Count(t, b, lot) == Part(y, lot);
    }
  }

  /** Nothing about the visit makes a run fail. At the top a folder must be readable. */
  predicate Fine(t: Tree, v: Visit, top: bool) {
    match v.entry.kind
    case Dir =>
      && |v.path| <= Paths.MAX_PATH_DEPTH
      && (t.walk(v.path).trouble.None? || (t.walk(v.path).trouble == Some(Api(NotReadable)) && !top))
    case File =>
      (match t.open(v.path)
       case Opened(size, copied) => copied == Ok(size)
       case Refused(trouble) =>
         || trouble == Api(NotReadable) || trouble == Api(NotFound)
         || trouble == Api(SpecialFile) || trouble == Api(LinkRefused))
    case _ => true
  }

  /** If the path is reached, its entry is fine. */
  ghost predicate FineAt(t: Tree, top: Path, e: Entry, p: Path) {
    EntryAt(t, top, e, p).Some? ==> Fine(t, Visit(p, EntryAt(t, top, e, p).value), p == top)
  }

  ghost predicate AllFine(t: Tree, vs: seq<Visit>) {
    forall v :: v in vs ==> Fine(t, v, false)
  }

  /** A run that goes through does for each visit what its kind asks, and it goes through
      exactly if every visit is fine. */
  ghost predicate RunsOver(t: Tree, vs: seq<Visit>, fine: bool, r: Run) {
    && (r.trouble.None? <==> fine)
    && (fine ==> r.members == HeadersOf(t, vs) && CountsOf(t, vs, r.rep))
  }

  lemma {:induction false} RunRegularOver(t: Tree, path: Path, e: Entry)
    requires t.Quiet() && e.kind == File
    ensures var v := Visit(path, e);
            RunsOver(t, [v], Fine(t, v, false), RunRegular(t, path))
  {
    var v := Visit(path, e);
    assert [v][1..] == [];
    assert HeadersOf(t, [v]) == HeaderOf(t, v) + [];
  }

  lemma {:induction false} ClosedOver(t: Tree, path: Path, e: Entry, top: bool, vs: seq<Visit>, inside: Run)
    requires e.kind == Dir && |path| <= Paths.MAX_PATH_DEPTH && inside.trouble != Some(Api(NotReadable))
    requires RunsOver(t, vs, AllFine(t, vs), inside)
    ensures var v := Visit(path, e);
            RunsOver(t, [v] + vs, Fine(t, v, top) && AllFine(t, vs), Closed(path, top, inside, t.walk(path).trouble))
  {
    var v := Visit(path, e);
    assert ([v] + vs)[1..] == vs;
    assert HeadersOf(t, [v] + vs) == HeaderOf(t, v) + HeadersOf(t, vs);
  }

  /** Over every tree with quiet reads, also an endless one. */
  lemma {:induction false} RunEntryOver(t: Tree, path: Path, e: Entry, top: bool)
    requires t.Quiet()
    ensures var vs := Visits(t, path, e);
            RunsOver(t, vs, Fine(t, vs[0], top) && AllFine(t, vs[1..]), RunEntry(t, path, e, top))
    decreases Paths.MAX_PATH_DEPTH + 2 - |path|, |t.walk(path).entries| + 1
  {
    var v := Visit(path, e);
    assert [v][1..] == [] && HeadersOf(t, [v]) == HeaderOf(t, v) + [];
    match e.kind
    case Dir =>
      if |path| <= Paths.MAX_PATH_DEPTH {
        var entries := t.walk(path).entries;
        var inside := VisitsAll(t, path, entries);
        RunAllOver(t, path, entries);
        RunAllCounts(t, path, entries);
        ClosedOver(t, path, e, top, inside, RunAll(t, path, entries));
        assert ([v] + inside)[1..] == inside;
      }
    case Symlink =>
    case File => RunRegularOver(t, path, e);
    case Special =>
  }

  lemma {:induction false} RunAllOver(t: Tree, path: Path, entries: seq<Entry>)
    requires t.Quiet() && |path| <= Paths.MAX_PATH_DEPTH
    ensures var vs := VisitsAll(t, path, entries);
            RunsOver(t, vs, AllFine(t, vs), RunAll(t, path, entries))
    decreases Paths.MAX_PATH_DEPTH + 2 - |path|, |entries|, 0
  {
    if entries != [] {
      var a, b := Visits(t, path + [entries[0].name], entries[0]), VisitsAll(t, path, entries[1..]);
      RunEntryOver(t, path + [entries[0].name], entries[0], false);
      RunAllOver(t, path, entries[1..]);
      BothOver(t, a, b, RunEntry(t, path + [entries[0].name], entries[0], false), RunAll(t, path, entries[1..]));
    }
  }

  lemma {:induction false} BothOver(t: Tree, a: seq<Visit>, b: seq<Visit>, first: Run, rest: Run)
    requires a != [] && RunsOver(t, a, Fine(t, a[0], false) && AllFine(t, a[1..]), first)
    requires RunsOver(t, b, AllFine(t, b), rest)
    ensures var r := if first.trouble.Some? then first
                     else Run(first.members + rest.members, Plus(first.rep, rest.rep), rest.trouble);
            RunsOver(t, a + b, AllFine(t, a + b), r)
  {
    assert a == [a[0]] + a[1..];
    assert AllFine(t, a) <==> Fine(t, a[0], false) && AllFine(t, a[1..]);
    assert AllFine(t, a + b) <==> AllFine(t, a) && AllFine(t, b);
    HeadersAppend(t, a, b);
    if AllFine(t, a + b) {
      CountsAppend(t, a, b, first.rep, rest.rep);
    }
  }

  /** What a tar holds: a header for every folder that is reached, but not for the root,
      for every link and for every file that opens, and for nothing else; and of the entries
      that are reached it counts the files that open, the links, what it skips and what it
      may not read. */
  ghost predicate Holds(t: Tree, top: Path, e: Entry, members: seq<Member>, rep: Report) {
    && (forall p :: Member(p, true) in members <==>
          p != [] && EntryAt(t, top, e, p).Some? && EntryAt(t, top, e, p).value.kind == Dir)
    && (forall p :: Member(p, false) in members <==>
          && EntryAt(t, top, e, p).Some?
          && var x := EntryAt(t, top, e, p).value;
             x.kind == Symlink || (x.kind == File && t.open(p).Opened?))
    && CountsOf(t, Visits(t, top, e), rep)
  }

  lemma {:induction false} HeadersTell(t: Tree, vs: seq<Visit>, m: Member)
    ensures m in HeadersOf(t, vs) <==> exists v :: v in vs && m in HeaderOf(t, v)
  {
    if vs != [] {
      assert vs == [vs[0]] + vs[1..];
      HeadersTell(t, vs[1..], m);
    }
  }

  /** A tar run that succeeds holds exactly what is reached, and it succeeds exactly if
      every entry that is reached is fine. */
  lemma {:induction false} RunHoldsWhatIsReached(t: Tree, top: Path, e: Entry)
    requires t.Valid() && t.Quiet()
    ensures var run := RunEntry(t, top, e, true);
            && (run.trouble.None? ==> Holds(t, top, e, run.members, run.rep))
            && (run.trouble.None? <==> forall p :: FineAt(t, top, e, p))
  {
    var run, vs := RunEntry(t, top, e, true), Visits(t, top, e);
    RunEntryOver(t, top, e, true);
    FineEverywhere(t, top, e);
    if run.trouble.None? {
      forall p, dir
        ensures Member(p, dir) in run.members <==>
                EntryAt(t, top, e, p).Some? && Member(p, dir) in HeaderOf(t, Visit(p, EntryAt(t, top, e, p).value))
      {
        HeaderExactly(t, top, e, Member(p, dir));
      }
    }
  }

  lemma {:induction false} HeaderExactly(t: Tree, top: Path, e: Entry, m: Member)
    requires t.Valid()
    ensures m in HeadersOf(t, Visits(t, top, e)) <==>
            EntryAt(t, top, e, m.path).Some? && m in HeaderOf(t, Visit(m.path, EntryAt(t, top, e, m.path).value))
  {
    var vs := Visits(t, top, e);
    HeadersTell(t, vs, m);
    if v :| v in vs && m in HeaderOf(t, v) {
      VisitsAreReached(t, top, e, v);
    }
    if EntryAt(t, top, e, m.path).Some? {
      VisitsAreReached(t, top, e, Visit(m.path, EntryAt(t, top, e, m.path).value));
    }
  }

  lemma {:induction false} FineEverywhere(t: Tree, top: Path, e: Entry)
    requires t.Valid()
    ensures var vs := Visits(t, top, e);
            Fine(t, vs[0], true) && AllFine(t, vs[1..]) <==> forall p :: FineAt(t, top, e, p)
  {
    var vs := Visits(t, top, e);
    TopIsFirst(t, top, e);
    if Fine(t, vs[0], true) && AllFine(t, vs[1..]) {
      forall p ensures FineAt(t, top, e, p) {
        if EntryAt(t, top, e, p).Some? {
          var v := Visit(p, EntryAt(t, top, e, p).value);
          VisitsAreReached(t, top, e, v);
          assert v == vs[0] || v in vs[1..];
        }
      }
    }
    if forall p :: FineAt(t, top, e, p) {
      forall v | v in vs ensures Fine(t, v, v.path == top) {
        VisitsAreReached(t, top, e, v);
        assert FineAt(t, top, e, v.path);
      }
      assert vs[0] in vs;
    }
  }

  lemma {:induction false} TopIsFirst(t: Tree, top: Path, e: Entry)
    requires t.Valid()
    ensures var vs := Visits(t, top, e);
            && vs == [Visit(top, e)] + vs[1..]
            && (forall v :: v in vs[1..] ==> v in vs && v.path != top)
            && (forall v :: v in vs ==> v == vs[0] || v in vs[1..])
  {
    var vs := Visits(t, top, e);
    VisitsOnce(t, top, e);
    assert vs[0] == Visit(top, e) && vs == [vs[0]] + vs[1..];
    forall v | v in vs[1..] ensures v in vs && v.path != top {
      var k :| 0 <= k < |vs[1..]| && vs[1..][k] == v;
      assert vs[k + 1] == v && PathsOf(vs)[0].path != PathsOf(vs)[k + 1].path;
    }
  }

  // ---- the names in the stream ----

  /** The names of a path with a slash between them. */
  function JoinSlash(parts: Path): (r: Bytes) {
    if parts == [] then []
    else if |parts| == 1 then parts[0]
    else parts[0] + [Paths.SLASH] + JoinSlash(parts[1..])
  }

  function HeaderText(m: Member, base: nat): (r: Bytes)
    requires base <= |m.path|
  {
    JoinSlash(m.path[base..]) + if m.dir then [Paths.SLASH] else []
  }

  lemma {:induction false} JoinSlashAppend(parts: Path, n: Bytes)
    requires parts != []
    ensures JoinSlash(parts + [n]) == JoinSlash(parts) + [Paths.SLASH] + n
  {
    var all := parts + [n];
    assert all[1..] == parts[1..] + [n];
    if |parts| > 1 {
      JoinSlashAppend(parts[1..], n);
    } else {
      assert all[1..] == [n];
    }
  }

  ghost predicate Names(parts: Path) {
    forall k :: 0 <= k < |parts| ==> parts[k] != [] && Paths.SLASH !in parts[k]
  }

  /** Splitting the text at its slashes gives the path back. */
  lemma {:induction false} SplitJoin(parts: Path, tail: Bytes)
    requires parts != [] && Names(parts) && (tail == [] || tail == [Paths.SLASH])
    ensures Paths.Split(JoinSlash(parts) + tail) == if tail == [] then parts else parts + [[]]
  {
    assert parts[0] + [] == parts[0];
    if |parts| == 1 {
      Paths.SplitHead(parts[0], tail);
      if tail != [] {
        assert tail[1..] == [];
        assert Paths.Split(tail) == [[]] + Paths.Split([]);
      }
    } else {
      var rest := JoinSlash(parts[1..]) + tail;
      var after := [Paths.SLASH] + rest;
      assert JoinSlash(parts) + tail == parts[0] + after;
      assert after[1..] == rest && Paths.Split(after) == [[]] + Paths.Split(rest);
      Paths.SplitHead(parts[0], after);
      assert Paths.Split(parts[0] + after) == [parts[0]] + Paths.Split(rest);
      SplitJoin(parts[1..], tail);
      assert parts == [parts[0]] + parts[1..];
      assert parts + [[]] == [parts[0]] + (parts[1..] + [[]]);
    }
  }

  /** Two members with the same header text are the same member. */
  lemma {:induction false} HeaderTextInjective(a: Member, b: Member, base: nat)
    requires base < |a.path| && base < |b.path| && a.path[..base] == b.path[..base]
    requires Names(a.path) && Names(b.path)
    requires HeaderText(a, base) == HeaderText(b, base)
    ensures a == b
  {
    var tail := (m: Member) => if m.dir then [Paths.SLASH] else [];
    SplitJoin(a.path[base..], tail(a));
    SplitJoin(b.path[base..], tail(b));
    var p, q := a.path[base..], b.path[base..];
    var s := Paths.Split(HeaderText(a, base));
    assert s[|s| - 1] == [] <==> a.dir;
    assert s[|s| - 1] == [] <==> b.dir;
    assert p == q by {
      if a.dir {
        assert p == s[..|s| - 1] && q == s[..|s| - 1];
      }
    }
    assert a.path == a.path[..base] + p && b.path == b.path[..base] + q;
  }

  lemma {:induction false} JoinSlashEmpty(parts: Path)
    requires Names(parts)
    ensures JoinSlash(parts) == [] <==> parts == []
  {
  }

  // ---- every header names a path below the top ----

  ghost predicate AllNames(members: seq<Member>) {
    forall k :: 0 <= k < |members| ==> Names(members[k].path)
  }

  lemma {:induction false} ChildNames(path: Path, n: Bytes)
    requires Names(path) && Paths.ValidName(n)
    ensures Names(path + [n])
  {
  }

  lemma {:induction false} RunEntryNames(t: Tree, path: Path, e: Entry, top: bool)
    requires t.Valid() && Names(path)
    ensures AllNames(RunEntry(t, path, e, top).members)
    decreases Paths.MAX_PATH_DEPTH + 2 - |path|, |t.walk(path).entries| + 1
  {
    if e.kind == Dir && |path| <= Paths.MAX_PATH_DEPTH {
      RunAllNames(t, path, t.walk(path).entries);
    }
  }

  lemma {:induction false} RunAllNames(t: Tree, path: Path, entries: seq<Entry>)
    requires t.Valid() && FolderOk(entries) && Names(path) && |path| <= Paths.MAX_PATH_DEPTH
    ensures AllNames(RunAll(t, path, entries).members)
    decreases Paths.MAX_PATH_DEPTH + 2 - |path|, |entries|, 0
  {
    if entries != [] {
      ChildNames(path, entries[0].name);
      RunEntryNames(t, path + [entries[0].name], entries[0], false);
      RunAllNames(t, path, entries[1..]);
    }
  }

  /** The place in a path where the names of a stream start. */
  function Base(top: Path): (n: nat)
    ensures n <= |top| && (top != [] ==> n == |top| - 1)
  {
    if top == [] then 0 else |top| - 1
  }

  ghost predicate Texts(headers: seq<Bytes>, members: seq<Member>, base: nat) {
    && |headers| == |members|
    && (forall k :: 0 <= k < |members| ==> base <= |members[k].path| && headers[k] == HeaderText(members[k], base))
  }

  /** A run never writes the same header name twice. */
  lemma {:induction false} HeadersDistinct(t: Tree, top: Path, e: Entry, headers: seq<Bytes>)
    requires t.Valid() && Names(top)
    requires Texts(headers, RunEntry(t, top, e, true).members, Base(top))
    ensures Distinct(headers)
  {
    var members := RunEntry(t, top, e, true).members;
    RunEntryDistinct(t, top, e, true);
    RunEntryNames(t, top, e, true);
    forall i, j | 0 <= i < j < |headers| ensures headers[i] != headers[j] {
      if headers[i] == headers[j] {
        var a, b, base := members[i], members[j], Base(top);
        assert top <= a.path && top <= b.path;
        assert a.path[..base] == top[..base] == b.path[..base];
        MembersHaveNames(t, top, e, i);
        MembersHaveNames(t, top, e, j);
        HeaderTextInjective(a, b, base);
      }
    }
  }

  lemma {:induction false} MembersHaveNames(t: Tree, top: Path, e: Entry, k: nat)
    requires t.Valid() && |RunEntry(t, top, e, true).members| > 1 && k < |RunEntry(t, top, e, true).members|
    ensures Base(top) < |RunEntry(t, top, e, true).members[k].path|
  {
    RunEntryDistinct(t, top, e, true);
    if top == [] {
      assert e.kind == Dir;
      RunAllDistinct(t, top, t.walk(top).entries);
    }
  }

  // ---- the writer ----

  /** What a part of a run did to the stream: all of it, or the output failed. */
  ghost predicate Did(room: nat, m0: seq<Member>, r0: Report, m1: seq<Member>, r1: Report, trouble: Option<Trouble>,
                      run: Run) {
    if |m0| + |run.members| <= room
    then m1 == m0 + run.members && r1 == Plus(r0, run.rep) && trouble == run.trouble
    else trouble == Some(Other)
  }

  function Then(done: seq<Member>, rep: Report, run: Run): (r: Run) {
    Run(done + run.members, Plus(rep, run.rep), run.trouble)
  }

  lemma {:induction false} RunAllStep(t: Tree, path: Path, entries: seq<Entry>, done: seq<Member>, rep: Report)
    requires |path| <= Paths.MAX_PATH_DEPTH && entries != []
    ensures var first := RunEntry(t, path + [entries[0].name], entries[0], false);
            Then(done, rep, RunAll(t, path, entries)) ==
            if first.trouble.Some? then Then(done, rep, first)
            else Then(done + first.members, Plus(rep, first.rep), RunAll(t, path, entries[1..]))
  {
    var first := RunEntry(t, path + [entries[0].name], entries[0], false);
    if first.trouble.None? {
      var rest := RunAll(t, path, entries[1..]);
      assert done + (first.members + rest.members) == done + first.members + rest.members;
    }
  }

  lemma {:induction false} DidStep(room: nat, m0: seq<Member>, r0: Report, done: seq<Member>, counted: Report,
                                   m1: seq<Member>, r1: Report, trouble: Option<Trouble>, first: Run, rest: Run,
                                   whole: Run)
    requires whole == if first.trouble.Some? then Then(done, counted, first)
                      else Then(done + first.members, Plus(counted, first.rep), rest)
    requires |m0 + done| <= room
    requires Did(room, m0 + done, Plus(r0, counted), m1, r1, trouble, first)
    ensures trouble.Some? ==> Did(room, m0, r0, m1, r1, trouble, whole)
    ensures trouble.None? ==>
              && m1 == m0 + (done + first.members) && r1 == Plus(r0, Plus(counted, first.rep))
              && whole == Then(done + first.members, Plus(counted, first.rep), rest)
  {
    assert m0 + done + first.members == m0 + (done + first.members);
  }

  lemma {:induction false} DidClosed(room: nat, m0: seq<Member>, r0: Report, path: Path, top: bool, m1: seq<Member>,
                                     r1: Report, trouble: Option<Trouble>, inside: Run, ended: Option<Trouble>)
    requires var head := if path == [] then [] else [Member(path, true)];
             |m0 + head| <= room && Did(room, m0 + head, r0, m1, r1, trouble, inside)
    ensures var last := if trouble.Some? then trouble else ended;
            if last == Some(Api(NotReadable)) && !top
            then Did(room, m0, r0, m1, r1.(unreadable := r1.unreadable + 1), None, Closed(path, top, inside, ended))
            else Did(room, m0, r0, m1, r1, last, Closed(path, top, inside, ended))
  {
    var head := if path == [] then [] else [Member(path, true)];
    assert m0 + head + inside.members == m0 + (head + inside.members);
  }

  lemma {:induction false} DidFromStart(room: nat, m1: seq<Member>, r1: Report, trouble: Option<Trouble>, run: Run)
    requires Did(room, [], Report(0, 0, 0, 0), m1, r1, trouble, run) && trouble.None?
    ensures m1 == run.members && r1 == run.rep && run.trouble.None?
  {
    assert [] + run.members == run.members;
  }

  class TarStream {
    const tree: Tree
    const base: nat
    /** How many headers the output takes before it fails. */
    const room: nat
    var headers: seq<Bytes>
    var rep: Report
    ghost var members: seq<Member>

    ghost predicate Valid()
      reads this
    {
      tree.Valid() && |members| <= room && Texts(headers, members, base)
    }

    /** A path and the name it has in the stream. */
    ghost predicate Named(path: Path, name: Bytes) {
      && base <= |path| && (path != [] ==> base < |path|) && Names(path)
      && name == JoinSlash(path[base..])
    }

    constructor (tree: Tree, top: Path, room: nat)
      requires tree.Valid()
      ensures Valid() && this.tree == tree && base == Base(top) && this.room == room
      ensures members == [] && rep == Report(0, 0, 0, 0)
    {
      this.tree, base, this.room := tree, Base(top), room;
      headers, rep, members := [], Report(0, 0, 0, 0), [];
    }

    method WriteHeader(path: Path, name: Bytes, dir: bool) returns (trouble: Option<Trouble>)
      requires Valid() && Named(path, name)
      modifies this
      ensures Valid() && rep == old(rep)
      ensures trouble == if |old(members)| < room then None else Some(Other)
      ensures members == if |old(members)| < room then old(members) + [Member(path, dir)] else old(members)
    {
      if |headers| >= room {
        return Some(Other);
      }
      headers := headers + [if dir then name + [Paths.SLASH] else name];
      members := members + [Member(path, dir)];
      assert !dir ==> name + [] == name;
      trouble := None;
    }

    method TarEntry(path: Path, name: Bytes, e: Entry, top: bool) returns (trouble: Option<Trouble>)
      requires Valid() && Named(path, name)
      modifies this
      ensures Valid()
      ensures Did(room, old(members), old(rep), members, rep, trouble, RunEntry(tree, path, e, top))
      decreases Paths.MAX_PATH_DEPTH + 2 - |path|, |tree.walk(path).entries| + 1
    {
      match e.kind
      case Dir => trouble := TarDir(path, name, top);
      case Symlink =>
        trouble := WriteHeader(path, name, false);
        if trouble.None? {
          rep := rep.(links := rep.links + 1);
        }
      case File => trouble := TarRegular(path, name);
      case Special =>
        rep := rep.(skipped := rep.skipped + 1);
        trouble := None;
    }

    method TarRegular(path: Path, name: Bytes) returns (trouble: Option<Trouble>)
      requires Valid() && Named(path, name)
      modifies this
      ensures Valid()
      ensures Did(room, old(members), old(rep), members, rep, trouble, RunRegular(tree, path))
    {
      var f := tree.open(path);
      if f.Refused? {
        if f.trouble == Api(NotReadable) {
          rep := rep.(unreadable := rep.unreadable + 1);
          return None;
        }
        if f.trouble == Api(NotFound) || f.trouble == Api(SpecialFile) || f.trouble == Api(LinkRefused) {
          rep := rep.(skipped := rep.skipped + 1);
          return None;
        }
        return Some(f.trouble);
      }
      trouble := CopyFile(path, name, f);
    }

    method CopyFile(path: Path, name: Bytes, f: Opened) returns (trouble: Option<Trouble>)
      requires Valid() && Named(path, name) && f == tree.open(path) && f.Opened?
      modifies this
      ensures Valid()
      ensures Did(room, old(members), old(rep), members, rep, trouble, RunRegular(tree, path))
    {
      trouble := WriteHeader(path, name, false);
      if trouble.Some? {
        return;
      }
      if f.copied.Err? {
        return Some(f.copied.error);
      }
      if f.copied.value != f.size {
        return Some(Other);
      }
      rep := rep.(files := rep.files + 1);
    }

    method TarDir(path: Path, name: Bytes, top: bool) returns (trouble: Option<Trouble>)
      requires Valid() && Named(path, name)
      modifies this
      ensures Valid()
      ensures Did(room, old(members), old(rep), members, rep, trouble, RunDir(tree, path, top))
      decreases Paths.MAX_PATH_DEPTH + 2 - |path|, |tree.walk(path).entries|, 1
    {
      if |path| > Paths.MAX_PATH_DEPTH {
        return Some(Api(BadPath));
      }
      JoinSlashEmpty(path[base..]);
      if |name| > 0 {
        trouble := WriteHeader(path, name, true);
        if trouble.Some? {
          return;
        }
      }
      var walked := tree.walk(path);
      trouble := TarAll(path, name, walked.entries);
      assert path == [] ==> old(members) + [] == old(members);
      DidClosed(room, old(members), old(rep), path, top, members, rep, trouble,
                RunAll(tree, path, walked.entries), walked.trouble);
      if trouble.None? {
        trouble := walked.trouble;
      }
      if trouble == Some(Api(NotReadable)) && !top {
        rep := rep.(unreadable := rep.unreadable + 1);
        trouble := None;
      }
    }

    /** The callback of a walk, for each entry in turn until one fails. */
    method TarAll(path: Path, name: Bytes, entries: seq<Entry>) returns (trouble: Option<Trouble>)
      requires Valid() && Named(path, name) && |path| <= Paths.MAX_PATH_DEPTH && FolderOk(entries)
      modifies this
      ensures Valid()
      ensures Did(room, old(members), old(rep), members, rep, trouble, RunAll(tree, path, entries))
      decreases Paths.MAX_PATH_DEPTH + 2 - |path|, |entries|, 0
    {
      ghost var done, counted := [], Report(0, 0, 0, 0);
      assert entries[0..] == entries;
      for i := 0 to |entries|
        invariant Valid() && members == old(members) + done && rep == Plus(old(rep), counted)
        invariant RunAll(tree, path, entries) == Then(done, counted, RunAll(tree, path, entries[i..]))
      {
        var c := entries[i];
        var child := if |name| > 0 then name + [Paths.SLASH] + c.name else c.name;
        ChildNamed(path, name, c.name);
        RunAllStep(tree, path, entries[i..], done, counted);
        assert entries[i..][1..] == entries[i + 1..];
        trouble := TarEntry(path + [c.name], child, c, false);
        ghost var first := RunEntry(tree, path + [c.name], c, false);
        DidStep(room, old(members), old(rep), done, counted, members, rep, trouble,
                first, RunAll(tree, path, entries[i + 1..]), RunAll(tree, path, entries));
        if trouble.Some? {
          return;
        }
        done, counted := done + first.members, Plus(counted, first.rep);
      }
      trouble := None;
    }

    lemma {:induction false} ChildNamed(path: Path, name: Bytes, n: Bytes)
      requires Named(path, name) && Paths.ValidName(n)
      ensures Named(path + [n], if |name| > 0 then name + [Paths.SLASH] + n else n)
    {
      ChildNames(path, n);
      JoinSlashEmpty(path[base..]);
      assert (path + [n])[base..] == path[base..] + [n];
      if path[base..] != [] {
        JoinSlashAppend(path[base..], n);
      }
    }
  }

  /** writeTar: on success the stream holds exactly the headers of the run, no two
      with the same name, and the report counts every non-folder entry reached and
      every unreadable folder below the top. */
  method WriteTar(tree: Tree, path: Path, room: nat, closes: bool) returns (headers: seq<Bytes>, rep: Report,
                  trouble: Option<Trouble>)
    requires tree.Valid()
    ensures !Paths.ValidPath(path) ==> trouble == Some(Api(BadPath))
    ensures trouble.None? ==>
              && Paths.ValidPath(path) && tree.stat(path).Ok? && tree.stat(path).value.kind != Symlink
              && var run := RunEntry(tree, path, tree.stat(path).value, true);
              && Texts(headers, run.members, Base(path)) && Distinct(headers)
              && rep == run.rep && run.trouble.None?
              && (tree.Quiet() ==> Sum(rep) == Reached(tree, path, tree.stat(path).value, true))
              && (tree.Quiet() ==> Holds(tree, path, tree.stat(path).value, run.members, rep))
  {
    headers, rep := [], Report(0, 0, 0, 0);
    var ok := Paths.ValidatePath(path);
    if !ok {
      return [], Report(0, 0, 0, 0), Some(Api(BadPath));
    }
    var top := tree.stat(path);
    if top.Err? {
      return [], Report(0, 0, 0, 0), Some(top.error);
    }
    if top.value.kind == Symlink {
      return [], Report(0, 0, 0, 0), Some(Api(LinkRefused));
    }
    var w := new TarStream(tree, path, room);
    var prefix := if |path| > 0 then path[|path| - 1] else [];
    PathHasNames(path);
    trouble := w.TarEntry(path, prefix, top.value, true);
    headers, rep := w.headers, w.rep;
    if trouble.Some? {
      return;
    }
    if !closes {
      return headers, rep, Some(Other);
    }
    RunSucceeded(tree, path, top.value, room, headers, w.members, rep);
  }

  lemma {:induction false} RunSucceeded(tree: Tree, path: Path, e: Entry, room: nat, headers: seq<Bytes>,
                                        members: seq<Member>, rep: Report)
    requires tree.Valid() && Names(path) && Texts(headers, members, Base(path))
    requires Did(room, [], Report(0, 0, 0, 0), members, rep, None, RunEntry(tree, path, e, true))
    ensures var run := RunEntry(tree, path, e, true);
            && Texts(headers, run.members, Base(path)) && Distinct(headers)
            && rep == run.rep && run.trouble.None?
            && (tree.Quiet() ==> Sum(rep) == Reached(tree, path, e, true))
            && (tree.Quiet() ==> Holds(tree, path, e, run.members, rep))
  {
    DidFromStart(room, members, rep, None, RunEntry(tree, path, e, true));
    HeadersDistinct(tree, path, e, headers);
    if tree.Quiet() {
      RunCounts(tree, path, e, true);
      RunHoldsWhatIsReached(tree, path, e);
    }
  }

  lemma {:induction false} PathHasNames(path: Path)
    requires Paths.ValidPath(path)
    ensures Names(path)
    ensures JoinSlash(path[Base(path)..]) == if |path| > 0 then path[|path| - 1] else []
  {
    assert forall k :: 0 <= k < |path| ==> path[k] in path;
    if path != [] {
      assert path[|path| - 1..] == [path[|path| - 1]];
    }
  }
}
