/** A backup read from object storage, folder by folder, through a bounded cache.

  The repository is a value: what each readable object holds. `down` names the
  objects that cannot be read while one call runs.
 */
module CosTree {
  import opened Order
  import opened Common
  import opened Collect
  import opened Paging
  import opened Manifest
  import Paths

  const DEFAULT_CACHE_ENTRIES := 400_000
  const MAX_LINK_TARGET := 4096
  const MAX_LINK_CACHE := 20_000

  datatype Repo = Repo(folders: map<Bytes, RawFolder>, content: map<Bytes, Bytes>)

  // ---- the plain meaning: no cache, no read that fails ----

  ghost function PlainFolder(repo: Repo, oid: Bytes): (r: Result<seq<MEntry>, Code>) {
    if !ValidOID(oid) then Err(NotReadable)
    else if oid !in repo.folders then Err(Internal)
    else Parsed(repo.folders[oid])
  }

  ghost function PlainFolderAt(repo: Repo, oid: Bytes, path: seq<Bytes>): (r: Result<seq<MEntry>, Code>)
    decreases |path|
  {
    var m := PlainFolder(repo, oid);
    if m.Err? || path == [] then m
    else match Lookup(m.value, path[0])
      case None => Err(NotFound)
      case Some(e) =>
        if e.typ == TYPE_DIR then if e.badOID then Err(NotReadable) else PlainFolderAt(repo, e.obj, path[1..])
        else if e.typ == TYPE_LINK then Err(LinkRefused)
        else Err(NotDir)
  }

  ghost function PlainEntryAt(repo: Repo, root: Bytes, path: seq<Bytes>): (r: Result<MEntry, Code>)
    requires path != []
  {
    match PlainFolderAt(repo, root, path[..|path| - 1])
    case Err(c) => Err(c)
    case Ok(m) => if Lookup(m, path[|path| - 1]).Some? then Ok(Lookup(m, path[|path| - 1]).value) else Err(NotFound)
  }

  lemma {:induction false} PlainFolderSorted(repo: Repo, oid: Bytes)
    requires PlainFolder(repo, oid).Ok?
    ensures SortedFolder(PlainFolder(repo, oid).value)
  {
    ParsedFolder(repo.folders[oid]);
  }

  lemma {:induction false} PlainFolderAtSorted(repo: Repo, oid: Bytes, path: seq<Bytes>)
    requires PlainFolderAt(repo, oid, path).Ok?
    ensures SortedFolder(PlainFolderAt(repo, oid, path).value)
    decreases |path|
  {
    PlainFolderSorted(repo, oid);
    if path != [] {
      var e := Lookup(PlainFolder(repo, oid).value, path[0]).value;
      PlainFolderAtSorted(repo, e.obj, path[1..]);
    }
  }

  function PlainLink(repo: Repo, oid: Bytes): (r: Option<Bytes>)
    ensures r.Some? ==> |r.value| <= MAX_LINK_TARGET
  {
    if oid in repo.content && |repo.content[oid]| <= MAX_LINK_TARGET then Some(repo.content[oid]) else None
  }

  function KindOf(typ: Bytes): (k: Kind)
    ensures k == Dir <==> typ == TYPE_DIR
    ensures k == File <==> typ == TYPE_FILE
    ensures k == Symlink <==> typ == TYPE_LINK
  {
    if typ == TYPE_DIR then Dir else if typ == TYPE_FILE then File else if typ == TYPE_LINK then Symlink else Special
  }

  function ToEntry(e: MEntry): (r: Entry) {
    var kind := KindOf(e.typ);
    Entry(e.name, kind, if kind == File then e.size else 0, e.mode, e.uid, e.gid, e.mtime, [],
          kind == Special || !e.badOID)
  }

  function WithTarget(r: Entry, target: Option<Bytes>): (s: Entry) {
    if target.Some? then r.(link := target.value) else r.(readable := false)
  }

  /** An entry as a listing shows it. */
  function Listed(repo: Repo, e: MEntry): (r: Entry) {
    var out := ToEntry(e);
    if out.kind != Symlink || !out.readable then out
    else if e.size > MAX_LINK_TARGET then out.(readable := false)
    else WithTarget(out, PlainLink(repo, e.obj))
  }

  /** An entry as Stat shows it. */
  function Statted(repo: Repo, e: MEntry): (r: Entry) {
    var out := ToEntry(e);
    if out.kind != Symlink || !out.readable then out else WithTarget(out, PlainLink(repo, e.obj))
  }

  /** Stat and a listing show the same, except for a link whose manifest claims a
      target longer than the one the object holds. */
  lemma {:induction false} StatAgreesWithListing(repo: Repo, e: MEntry)
    ensures Statted(repo, e) == Listed(repo, e) <==>
            !(e.typ == TYPE_LINK && !e.badOID && e.size > MAX_LINK_TARGET && PlainLink(repo, e.obj).Some?)
  {
    var out := ToEntry(e);
    if out.kind == Symlink && out.readable {
      assert WithTarget(out, None) == out.(readable := false);
    }
  }

  /** An entry as a listing shows it while some objects cannot be read. */
  ghost predicate Shown(repo: Repo, down: set<Bytes>, e: MEntry, out: Entry) {
    out == Listed(repo, e) || (e.obj in down && out == ToEntry(e).(readable := false))
  }

  /** The top folder: a readable folder without a name, owned as its snapshot says. */
  function RootEntry(meta: Entry): (r: Entry)
    ensures r.kind == Dir && r.readable && r.mode != 0 && r.uid == meta.uid && r.gid == meta.gid
    ensures r.mtime == meta.mtime && r.name == [] && (meta.mode != 0 ==> r.mode == meta.mode)
  {
    meta.(name := [], kind := Dir, readable := true, mode := if meta.mode == 0 then 493 else meta.mode)
  }

  function ListedAll(repo: Repo, m: seq<MEntry>): (r: seq<Entry>)
    ensures |r| == |m| && forall k :: 0 <= k < |m| ==> r[k] == Listed(repo, m[k])
  {
    seq(|m|, k requires 0 <= k < |m| => Listed(repo, m[k]))
  }

  ghost function EntryMap(repo: Repo, m: seq<MEntry>): (r: map<Bytes, Entry>)
    ensures forall n :: n in r <==> n in NamesOf(m)
  {
    if m == [] then map[]
    else
      assert NamesOf(m) == [m[0].name] + NamesOf(m[1..]);
      EntryMap(repo, m[1..])[m[0].name := Listed(repo, m[0])]
  }

  lemma {:induction false} EntryMapAt(repo: Repo, m: seq<MEntry>, k: nat)
    requires SortedFolder(m) && k < |m|
    ensures m[k].name in EntryMap(repo, m) && EntryMap(repo, m)[m[k].name] == Listed(repo, m[k])
  {
    assert NamesOf(m)[k] in NamesOf(m);
    if k > 0 {
      assert NamesOf(m[1..]) == NamesOf(m)[1..];
      LessTotal(NamesOf(m)[0], NamesOf(m)[k]);
      EntryMapAt(repo, m[1..], k - 1);
    }
  }

  /** A page of a folder while some objects cannot be read: the right names, in
      order, each with its entry, and the right cursor. */
  ghost predicate PageShown(repo: Repo, down: set<Bytes>, m: seq<MEntry>, cursor: Bytes, n: nat, page: ListPage)
    requires n >= 1
  {
    && AllShown(repo, down, PageEntries(m, cursor, n), page.entries)
    && page.next == PageCursor(m, cursor, n)
  }

  ghost predicate AllShown(repo: Repo, down: set<Bytes>, m: seq<MEntry>, out: seq<Entry>) {
    |out| == |m| && forall k :: 0 <= k < |m| ==> Shown(repo, down, m[k], out[k])
  }

  /** An entry as Stat shows it while some objects cannot be read. */
  ghost predicate StatShown(repo: Repo, down: set<Bytes>, e: MEntry, out: Entry) {
    out == Statted(repo, e) || (e.obj in down && out == ToEntry(e).(readable := false))
  }

  /** What Open gives for an entry. */
  function Opens(e: MEntry): (r: Result<(Bytes, nat), Code>)
    ensures r.Ok? <==> e.typ == TYPE_FILE && !e.badOID
  {
    match KindOf(e.typ)
    case File => if e.badOID then Err(NotReadable) else Ok((e.obj, e.size))
    case Dir => Err(NotFile)
    case Symlink => Err(LinkRefused)
    case Special => Err(SpecialFile)
  }

  // ---- the cache ----

  ghost function Cost(repo: Repo, oid: Bytes): (n: nat) {
    if PlainFolder(repo, oid).Ok? then |PlainFolder(repo, oid).value| + 1 else 1
  }

  ghost function Total(repo: Repo, order: seq<Bytes>): (n: nat) {
    if order == [] then 0 else Cost(repo, order[0]) + Total(repo, order[1..])
  }

  lemma {:induction false} TotalAppend(repo: Repo, order: seq<Bytes>, oid: Bytes)
    ensures Total(repo, order + [oid]) == Total(repo, order) + Cost(repo, oid)
  {
    if order == [] {
      assert order + [oid] == [oid] && [oid][1..] == [];
    } else {
      TotalAppend(repo, order[1..], oid);
      assert (order + [oid])[1..] == order[1..] + [oid];
    }
  }

  /** The oldest folders go until the rest fits, or one is left. */
  ghost function Trimmed(repo: Repo, order: seq<Bytes>, limit: nat): (r: seq<Bytes>)
    ensures order != [] ==> r != [] && r[|r| - 1] == order[|order| - 1]
    ensures Total(repo, r) <= limit || |r| <= 1
  {
    if |order| > 1 && Total(repo, order) > limit then Trimmed(repo, order[1..], limit) else order
  }

  ghost predicate CacheOk(repo: Repo, cache: map<Bytes, seq<MEntry>>, order: seq<Bytes>) {
    && Distinct(order)
    && (forall o :: o in order <==> o in cache)
    && (forall o :: o in cache ==> PlainFolder(repo, o) == Ok(cache[o]))
  }

  ghost predicate LinksOk(repo: Repo, links: map<Bytes, Bytes>) {
    |links| <= MAX_LINK_CACHE && forall o :: o in links ==> PlainLink(repo, o) == Some(links[o])
  }

  lemma {:induction false} CacheGrows(repo: Repo, cache: map<Bytes, seq<MEntry>>, order: seq<Bytes>, oid: Bytes,
                                      m: seq<MEntry>)
    requires CacheOk(repo, cache, order) && oid !in cache && PlainFolder(repo, oid) == Ok(m)
    ensures CacheOk(repo, cache[oid := m], order + [oid])
  {
  }

  lemma {:induction false} CacheShrinks(repo: Repo, cache: map<Bytes, seq<MEntry>>, order: seq<Bytes>)
    requires CacheOk(repo, cache, order) && order != []
    ensures CacheOk(repo, cache - {order[0]}, order[1..])
    ensures |cache[order[0]]| + 1 == Cost(repo, order[0])
  {
    assert order == [order[0]] + order[1..];
    assert order[0] in cache;
  }

  class Tree {
    const repo: Repo
    const root: Bytes
    const meta: Entry
    const limit: nat
    var cache: map<Bytes, seq<MEntry>>
    var order: seq<Bytes>
    var size: int
    var links: map<Bytes, Bytes>

    /** Every cached folder is what reading it again would give, and the cache
        stays within its limit or holds one folder. */
    ghost predicate Valid()
      reads this
    {
      && Counted()
      && (size <= limit || |order| <= 1)
      && LinksOk(repo, links)
    }

    ghost predicate Counted()
      reads this`cache, this`order, this`size
    {
      CacheOk(repo, cache, order) && size == Total(repo, order)
    }

    constructor (repo: Repo, root: Bytes, meta: Entry, cacheEntries: int)
      ensures Valid() && this.repo == repo && this.root == root && this.meta == meta && order == []
      ensures limit == if cacheEntries <= 0 then DEFAULT_CACHE_ENTRIES else cacheEntries
    {
      this.repo, this.root, this.meta := repo, root, meta;
      limit := if cacheEntries <= 0 then DEFAULT_CACHE_ENTRIES else cacheEntries;
      cache, order, size, links := map[], [], 0, map[];
    }

    method Remember(oid: Bytes, m: seq<MEntry>)
      requires Valid() && PlainFolder(repo, oid) == Ok(m)
      modifies this
      ensures Valid() && links == old(links)
      ensures oid in old(cache) ==> order == old(order) && cache == old(cache)
      ensures oid !in old(cache) ==> order == Trimmed(repo, old(order) + [oid], limit)
    {
      if oid !in cache {
        ghost var grown := order + [oid];
        Insert(oid, m);
        assert order == grown;
        Trim();
        assert order == Trimmed(repo, grown, limit);
      }
    }

    method Insert(oid: Bytes, m: seq<MEntry>)
      requires Counted() && oid !in cache && PlainFolder(repo, oid) == Ok(m)
      modifies this`cache, this`order, this`size
      ensures Counted() && order == old(order) + [oid]
    {
      CacheGrows(repo, cache, order, oid, m);
      TotalAppend(repo, order, oid);
      cache, order, size := cache[oid := m], order + [oid], size + |m| + 1;
    }

    method Trim()
      requires Counted()
      modifies this`cache, this`order, this`size
      ensures Counted() && (size <= limit || |order| <= 1)
      ensures order == Trimmed(repo, old(order), limit)
    {
      while size > limit && |order| > 1
        invariant Counted()
        invariant Trimmed(repo, order, limit) == Trimmed(repo, old(order), limit)
        decreases |order|
      {
        CacheShrinks(repo, cache, order);
        var oldest := order[0];
        order := order[1..];
        size := size - (|cache[oldest]| + 1);
        cache := cache - {oldest};
      }
    }

    /** The folder with an object ID, from the cache or read and parsed. */
    method ManifestOf(oid: Bytes, down: set<Bytes>) returns (r: Result<seq<MEntry>, Code>)
      requires Valid()
      modifies this
      ensures Valid() && links == old(links)
      ensures r == PlainFolder(repo, oid) || (oid in down && r == Err(Internal))
      ensures r.Ok? ==> SortedFolder(r.value)
    {
      if !ValidOID(oid) {
        return Err(NotReadable);
      }
      if oid in cache {
        PlainFolderSorted(repo, oid);
        return Ok(cache[oid]);
      }
      if oid in down || oid !in repo.folders {
        return Err(Internal);
      }
      r := ParseManifest(repo.folders[oid]);
      if r.Ok? {
        PlainFolderSorted(repo, oid);
        Remember(oid, r.value);
      }
    }

    /** The folder at a path, one name at a time from the root. */
    method FolderAt(path: seq<Bytes>, down: set<Bytes>) returns (r: Result<seq<MEntry>, Code>)
      requires Valid()
      modifies this
      ensures Valid() && links == old(links)
      ensures r == PlainFolderAt(repo, root, path) || (down != {} && r == Err(Internal))
      ensures r.Ok? ==> SortedFolder(r.value)
    {
      var oid := root;
      for i := 0 to |path|
        invariant Valid() && links == old(links)
        invariant PlainFolderAt(repo, oid, path[i..]) == PlainFolderAt(repo, root, path)
      {
        var m := ManifestOf(oid, down);
        if m.Err? {
          return m;
        }
        var e := Find(m.value, path[i]);
        if e.None? {
          return Err(NotFound);
        }
        if e.value.typ == TYPE_DIR {
          if e.value.badOID {
            return Err(NotReadable);
          }
          oid := e.value.obj;
          assert path[i..][1..] == path[i + 1..];
        } else if e.value.typ == TYPE_LINK {
          return Err(LinkRefused);
        } else {
          return Err(NotDir);
        }
      }
      r := ManifestOf(oid, down);
    }

    method EntryAt(path: seq<Bytes>, down: set<Bytes>) returns (r: Result<MEntry, Code>)
      requires Valid() && path != []
      modifies this
      ensures Valid() && links == old(links)
      ensures r == PlainEntryAt(repo, root, path) || (down != {} && r == Err(Internal))
    {
      var parent := FolderAt(path[..|path| - 1], down);
      if parent.Err? {
        return Err(parent.error);
      }
      var e := Find(parent.value, path[|path| - 1]);
      r := if e.None? then Err(NotFound) else Ok(e.value);
    }

    /** The target of a link, from the link cache or read. */
    method LinkTarget(oid: Bytes, down: set<Bytes>) returns (r: Option<Bytes>)
      requires Valid()
      modifies this
      ensures Valid() && cache == old(cache) && order == old(order)
      ensures r == PlainLink(repo, oid) || (oid in down && r == None)
    {
      if oid in links {
        return Some(links[oid]);
      }
      if oid in down || oid !in repo.content || |repo.content[oid]| > MAX_LINK_TARGET {
        return None;
      }
      if |links| >= MAX_LINK_CACHE {
        links := map[];
      }
      links := links[oid := repo.content[oid]];
      r := Some(repo.content[oid]);
    }

    method FillLink(raw: MEntry, down: set<Bytes>) returns (out: Entry)
      requires Valid()
      modifies this
      ensures Valid() && cache == old(cache) && order == old(order)
      ensures Shown(repo, down, raw, out)
    {
      out := ToEntry(raw);
      if out.kind == Symlink && out.readable {
        if raw.size > MAX_LINK_TARGET {
          out := out.(readable := false);
        } else {
          var target := LinkTarget(raw.obj, down);
          out := WithTarget(out, target);
        }
      }
    }

    /** Some entries, with the targets of their links; a target that cannot be
        read now leaves its link unreadable. */
    method FillLinks(raw: seq<MEntry>, down: set<Bytes>) returns (out: seq<Entry>)
      requires Valid()
      modifies this
      ensures Valid() && cache == old(cache) && order == old(order)
      ensures AllShown(repo, down, raw, out)
    {
      out := [];
      for i := 0 to |raw|
        invariant Valid() && cache == old(cache) && order == old(order) && |out| == i
        invariant forall k :: 0 <= k < i ==> Shown(repo, down, raw[k], out[k])
      {
        var e := FillLink(raw[i], down);
        out := out + [e];
      }
    }

    /** One page of the folder at a path. */
    method List(path: seq<Bytes>, cursor: Bytes, count: int, down: set<Bytes>) returns (r: Result<ListPage, Code>)
      requires Valid()
      modifies this
      ensures Valid()
      ensures !Paths.ValidPath(path) ==> r == Err(BadPath)
      ensures Paths.ValidPath(path) ==>
                || (down != {} && r == Err(Internal))
                || match PlainFolderAt(repo, root, path)
                   case Err(c) => r == Err(c)
                   case Ok(m) => r.Ok? && PageShown(repo, down, m, cursor, EffectiveLimit(count), r.value)
    {
      var ok := Paths.ValidatePath(path);
      if !ok {
        return Err(BadPath);
      }
      var n := EffectiveLimit(count);
      var folder := FolderAt(path, down);
      if folder.Err? {
        return Err(folder.error);
      }
      var page := PageAfter(folder.value, cursor, n, down);
      r := Ok(page);
    }

    method PageAfter(m: seq<MEntry>, cursor: Bytes, n: nat, down: set<Bytes>) returns (page: ListPage)
      requires Valid() && SortedFolder(m) && n >= 1
      modifies this
      ensures Valid() && PageShown(repo, down, m, cursor, n, page)
    {
      var raw, next := SlicePage(m, cursor, n);
      var entries := FillLinks(raw, down);
      page := ListPage(entries, next);
    }

    /** Every entry of the folder at a path, in order, in batches of 500. */
    method Walk(path: seq<Bytes>, down: set<Bytes>) returns (visited: seq<Entry>, r: Option<Code>)
      requires Valid()
      modifies this
      ensures Valid()
      ensures !Paths.ValidPath(path) ==> r == Some(BadPath)
      ensures Paths.ValidPath(path) ==>
                || (down != {} && r == Some(Internal))
                || match PlainFolderAt(repo, root, path)
                   case Err(c) => r == Some(c)
                   case Ok(m) => r == None && AllShown(repo, down, m, visited)
    {
      visited := [];
      var ok := Paths.ValidatePath(path);
      if !ok {
        return [], Some(BadPath);
      }
      var folder := FolderAt(path, down);
      if folder.Err? {
        return [], Some(folder.error);
      }
      visited := WalkAll(folder.value, down);
      r := None;
    }

    method WalkAll(m: seq<MEntry>, down: set<Bytes>) returns (visited: seq<Entry>)
      requires Valid()
      modifies this
      ensures Valid()
      ensures AllShown(repo, down, m, visited)
    {
      visited := [];
      while |visited| < |m|
        invariant Valid() && |visited| <= |m|
        invariant forall k :: 0 <= k < |visited| ==> Shown(repo, down, m[k], visited[k])
      {
        var start := |visited|;
        var raw := m[start..Min(start + 500, |m|)];
        var batch := FillLinks(raw, down);
        forall k | 0 <= k < |batch| ensures Shown(repo, down, m[start + k], batch[k]) {
          assert raw[k] == m[start + k];
        }
        visited := visited + batch;
      }
    }

    /** What the name at a path is; a link is described, not followed. */
    method Stat(path: seq<Bytes>, down: set<Bytes>) returns (r: Result<Entry, Code>)
      requires Valid()
      modifies this
      ensures Valid()
      ensures !Paths.ValidPath(path) ==> r == Err(BadPath)
      ensures path == [] ==> r == Ok(RootEntry(meta))
      ensures Paths.ValidPath(path) && path != [] ==>
                || (down != {} && r == Err(Internal))
                || match PlainEntryAt(repo, root, path)
                   case Err(c) => r == Err(c)
                   case Ok(e) => r.Ok? && StatShown(repo, down, e, r.value)
    {
      var ok := Paths.ValidatePath(path);
      if !ok {
        return Err(BadPath);
      }
      if path == [] {
        return Ok(RootEntry(meta));
      }
      var e := EntryAt(path, down);
      if e.Err? {
        return Err(e.error);
      }
      var out := ToEntry(e.value);
      if out.kind == Symlink && out.readable {
        var target := LinkTarget(e.value.obj, down);
        out := WithTarget(out, target);
      }
      r := Ok(out);
    }

    /** The object and size behind the regular file at a path. */
    method Open(path: seq<Bytes>, down: set<Bytes>) returns (r: Result<(Bytes, nat), Code>)
      requires Valid()
      modifies this
      ensures Valid()
      ensures !Paths.ValidPath(path) ==> r == Err(BadPath)
      ensures path == [] ==> r == Err(NotFile)
      ensures Paths.ValidPath(path) && path != [] ==>
                || (down != {} && r == Err(Internal))
                || match PlainEntryAt(repo, root, path)
                   case Err(c) => r == Err(c)
                   case Ok(e) => r == Opens(e)
      ensures r.Ok? ==> ValidOID(r.value.0)
    {
      var ok := Paths.ValidatePath(path);
      if !ok {
        return Err(BadPath);
      }
      if path == [] {
        return Err(NotFile);
      }
      var e := EntryAt(path, down);
      if e.Err? {
        return Err(e.error);
      }
      match KindOf(e.value.typ)
      case Dir => return Err(NotFile);
      case Symlink => return Err(LinkRefused);
      case Special => return Err(SpecialFile);
      case File =>
        if e.value.badOID {
          return Err(NotReadable);
        }
        EntryAtIsSound(repo, root, path);
        r := Ok((e.value.obj, e.value.size));
    }
  }

  // ---- lemmas ----

  /** `stat` holds every entry of the folder as a listing shows it. */
  ghost predicate StatFor(repo: Repo, m: seq<MEntry>, stat: map<Bytes, Entry>) {
    forall e :: e in m ==> e.name in stat && stat[e.name] == Listed(repo, e)
  }

  lemma {:induction false} EntryMapIsStat(repo: Repo, m: seq<MEntry>)
    requires SortedFolder(m)
    ensures StatFor(repo, m, EntryMap(repo, m))
  {
    forall e | e in m ensures e.name in EntryMap(repo, m) && EntryMap(repo, m)[e.name] == Listed(repo, e) {
      var k :| 0 <= k < |m| && m[k] == e;
      EntryMapAt(repo, m, k);
    }
  }

  lemma {:induction false} PageEntriesIn(m: seq<MEntry>, cursor: Bytes, n: nat)
    ensures forall e :: e in PageEntries(m, cursor, n) ==> e in m
  {
    EntriesAfterMembers(m, cursor);
  }

  lemma {:induction false} ShownIsListed(repo: Repo, m: seq<MEntry>, raw: seq<MEntry>, stat: map<Bytes, Entry>,
                                         entries: seq<Entry>, k: nat)
    requires StatFor(repo, m, stat) && AllShown(repo, {}, raw, entries) && k < |raw| && raw[k] in m
    ensures raw[k].name in stat && entries[k] == stat[raw[k].name]
  {
  }

  /** With every object readable, a page of a backup's folder is the page of its
      sorted names. */
  lemma {:induction false} PageFromEntries(repo: Repo, m: seq<MEntry>, stat: map<Bytes, Entry>, cursor: Bytes, n: nat,
                                           page: ListPage)
    requires StatFor(repo, m, stat) && n >= 1 && PageShown(repo, {}, m, cursor, n, page)
    ensures PageOf(NamesOf(m), stat, cursor, n, page)
  {
    var raw := PageEntries(m, cursor, n);
    PageEntriesNames(m, cursor, n);
    PageEntriesIn(m, cursor, n);
    forall k | 0 <= k < |raw| ensures raw[k].name in stat && page.entries[k] == stat[raw[k].name] {
      ShownIsListed(repo, m, raw, stat, page.entries, k);
    }
  }

  /** A page is determined by the names, what they are, the cursor and the limit. */
  lemma {:induction false} PageUnique(sorted: seq<Bytes>, stat: map<Bytes, Entry>, cursor: Bytes, limit: nat,
                                      p: ListPage, q: ListPage)
    requires limit >= 1 && PageOf(sorted, stat, cursor, limit, p) && PageOf(sorted, stat, cursor, limit, q)
    ensures p == q
  {
    assert p.entries == q.entries;
  }

  /** A folder on disk and a folder in a backup that hold the same names list them
      in the same order. */
  lemma {:induction false} SameNamesSameOrder(f: Folder, m: seq<MEntry>)
    requires f.Valid() && SortedFolder(m)
    requires forall n :: n in f.order <==> n in NamesOf(m)
    ensures f.Names() == NamesOf(m)
  {
    FolderNamesSorted(f);
    StrictlySortedUnique(f.Names(), NamesOf(m));
  }

  /** A folder gives the same page for every cursor and limit whether it is scanned
      on disk through the heap or searched in a backup's manifest. */
  lemma {:induction false} ListingsAgree(f: Folder, repo: Repo, m: seq<MEntry>, cursor: Bytes, limit: nat,
                                         p: ListPage, q: ListPage)
    requires f.Valid() && SortedFolder(m) && limit >= 1
    requires f.stat == EntryMap(repo, m)
    requires PageOf(f.Names(), f.stat, cursor, limit, p)
    requires PageShown(repo, {}, m, cursor, limit, q)
    ensures p == q
  {
    EntryMapIsStat(repo, m);
    PageFromEntries(repo, m, EntryMap(repo, m), cursor, limit, q);
    SameNamesSameOrder(f, m);
    PageUnique(f.Names(), f.stat, cursor, limit, p, q);
  }

  lemma {:induction false} KeptOIDs(raw: RawFolder, e: MEntry)
    requires Parsed(raw).Ok? && e in Parsed(raw).value
    ensures (!e.badOID ==> ValidOID(e.obj)) && Paths.ValidName(e.name)
  {
    ParsedFolder(raw);
    KeptMembers(raw.entries);
    assert e in multiset(Parsed(raw).value);
    assert e in Kept(raw.entries);
  }

  lemma {:induction false} FolderAtIsSound(repo: Repo, oid: Bytes, path: seq<Bytes>, e: MEntry)
    requires PlainFolderAt(repo, oid, path).Ok? && e in PlainFolderAt(repo, oid, path).value
    ensures (!e.badOID ==> ValidOID(e.obj)) && Paths.ValidName(e.name)
    decreases |path|
  {
    if path == [] {
      KeptOIDs(repo.folders[oid], e);
    } else {
      FolderAtIsSound(repo, Lookup(PlainFolder(repo, oid).value, path[0]).value.obj, path[1..], e);
    }
  }

  /** An entry that a walk by name reaches gives only valid object IDs to the repository. */
  lemma {:induction false} EntryAtIsSound(repo: Repo, root: Bytes, path: seq<Bytes>)
    requires path != [] && PlainEntryAt(repo, root, path).Ok?
    ensures var e := PlainEntryAt(repo, root, path).value;
            (!e.badOID ==> ValidOID(e.obj)) && e.name == path[|path| - 1]
  {
    FolderAtIsSound(repo, root, path[..|path| - 1], PlainEntryAt(repo, root, path).value);
  }

  /** Why a folder cannot be gone into: what stands there under the name. */
  ghost predicate StopsAt(repo: Repo, m: seq<MEntry>, name: Bytes, code: Code) {
    match Lookup(m, name)
    case None => code == NotFound
    case Some(e) =>
      && (e.typ == TYPE_LINK ==> code == LinkRefused)
      && (e.typ == TYPE_DIR && e.badOID ==> code == NotReadable)
      && (e.typ == TYPE_DIR && !e.badOID ==> PlainFolder(repo, e.obj) == Err(code))
      && (e.typ != TYPE_LINK && e.typ != TYPE_DIR ==> code == NotDir)
  }

  /** A path that leads to no folder is refused for what stands at the first name that cannot
      be gone into. */
  lemma {:induction false} RefusalTells(repo: Repo, oid: Bytes, path: seq<Bytes>)
    requires PlainFolder(repo, oid).Ok? && PlainFolderAt(repo, oid, path).Err?
    ensures exists k ::
              && 0 <= k < |path| && PlainFolderAt(repo, oid, path[..k]).Ok?
              && StopsAt(repo, PlainFolderAt(repo, oid, path[..k]).value, path[k], PlainFolderAt(repo, oid, path).error)
    decreases |path|
  {
    var m, code := PlainFolder(repo, oid).value, PlainFolderAt(repo, oid, path).error;
    var e := Lookup(m, path[0]);
    if e.Some? && e.value.typ == TYPE_DIR && !e.value.badOID && PlainFolder(repo, e.value.obj).Ok? {
      var below := e.value.obj;
      RefusalTells(repo, below, path[1..]);
      var k :| && 0 <= k < |path| - 1 && PlainFolderAt(repo, below, path[1..][..k]).Ok?
               && StopsAt(repo, PlainFolderAt(repo, below, path[1..][..k]).value, path[1..][k], code);
      GoesOn(repo, oid, path, k);
      assert path[1..][k] == path[k + 1];
      assert 0 <= k + 1 < |path| && PlainFolderAt(repo, oid, path[..k + 1]).Ok?;
    } else {
      assert path[..0] == [];
      assert 0 <= 0 < |path| && PlainFolderAt(repo, oid, path[..0]).Ok? && StopsAt(repo, m, path[0], code);
    }
  }

  lemma {:induction false} GoesOn(repo: Repo, oid: Bytes, path: seq<Bytes>, k: nat)
    requires k < |path| && PlainFolder(repo, oid).Ok?
    requires var e := Lookup(PlainFolder(repo, oid).value, path[0]);
             e.Some? && e.value.typ == TYPE_DIR && !e.value.badOID
    ensures PlainFolderAt(repo, oid, path[..k + 1]) ==
            PlainFolderAt(repo, Lookup(PlainFolder(repo, oid).value, path[0]).value.obj, path[1..][..k])
  {
    assert path[..k + 1][1..] == path[1..][..k];
  }

  // ---- from the text of a folder to what is shown ----

  /** Where an entry comes from: the JSON text of the folder that holds it has it, under its
      own name. */
  lemma {:induction false} EntryIsInTheText(repo: Repo, oid: Bytes, e: MEntry)
    requires PlainFolder(repo, oid).Ok? && e in PlainFolder(repo, oid).value
    ensures exists k :: 0 <= k < |repo.folders[oid].entries| && e == Read(repo.folders[oid].entries[k])
  {
    ParsedFolder(repo.folders[oid]);
    KeptMembers(repo.folders[oid].entries);
    assert e in multiset(Parsed(repo.folders[oid]).value);
    assert e in Kept(repo.folders[oid].entries);
  }

  /** What Stat shows of an entry, by the text alone. */
  lemma {:induction false} StatShowsTheText(repo: Repo, raw: RawEntry)
    ensures var out := Statted(repo, Read(raw));
            && out.name == raw.name && out.uid == raw.uid && out.gid == raw.gid
            && (out.kind == Dir <==> raw.typ == [100]) && (out.kind == File <==> raw.typ == [102])
            && (out.kind == Symlink <==> raw.typ == [115])
            && out.size == (if raw.typ == [102] && raw.size >= 0 then raw.size else 0)
            && out.mode == (if raw.mode.Some? then raw.mode.value % 0x1000 else 0)
            && out.mtime == (if raw.mtime.Some? then raw.mtime.value else 0)
            && (out.readable <==>
                  || out.kind == Special
                  || (ValidOID(raw.obj) && raw.size >= 0 && (out.kind == Symlink ==> PlainLink(repo, raw.obj).Some?)))
            && out.link == (if out.kind == Symlink && out.readable then repo.content[raw.obj] else [])
  {
  }

  /** A file opens exactly if its text has a valid ID and a size, with that object and size. */
  lemma {:induction false} OpenFollowsTheText(raw: RawEntry)
    ensures Opens(Read(raw)).Ok? <==> raw.typ == [102] && ValidOID(raw.obj) && raw.size >= 0
    ensures Opens(Read(raw)).Ok? ==> Opens(Read(raw)).value == (raw.obj, raw.size)
    ensures raw.typ == [100] ==> Opens(Read(raw)) == Err(NotFile)
    ensures raw.typ == [115] ==> Opens(Read(raw)) == Err(LinkRefused)
    ensures raw.typ == [102] && (!ValidOID(raw.obj) || raw.size < 0) ==> Opens(Read(raw)) == Err(NotReadable)
    ensures raw.typ !in {[100], [102], [115]} ==> Opens(Read(raw)) == Err(SpecialFile)
  {
  }

  /** Stat of a name in a folder describes the entry that the folder's listing
      holds under that name. */
  lemma {:induction false} StatFindsListedEntry(repo: Repo, root: Bytes, path: seq<Bytes>, k: nat)
    requires PlainFolderAt(repo, root, path).Ok? && k < |PlainFolderAt(repo, root, path).value|
    ensures var m := PlainFolderAt(repo, root, path).value;
            PlainEntryAt(repo, root, path + [m[k].name]) == Ok(m[k])
  {
    var m := PlainFolderAt(repo, root, path).value;
    PlainFolderAtSorted(repo, root, path);
    LookupAt(m, k);
    assert (path + [m[k].name])[..|path|] == path;
  }
}
